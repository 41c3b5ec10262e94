/** What normalization does to a whole document: its tree, its sections, and a second run. */
module DocxNormalized {
  import opened Options
  import opened DocxModel
  import opened DocxParser
  import opened DocxMeaning
  import opened DocxRefinement
  import opened DocxRewrite
  import opened DocxPieces
  import opened Sequences

  // ----- the edits are the rewritten blocks -----

  /** The edits of a stretch of pieces that starts at position `at`. */
  function EditOfPiece(p: Piece, at: nat): seq<Edit<Tag>> {
    if p.Block? && Overflows(p.section) then [Edit(at, at + |Text(p)|, NewText(p))] else []
  }

  function PieceEdits(ps: seq<Piece>, at: nat): seq<Edit<Tag>>
    decreases ps
  {
    if ps == [] then [] else EditOfPiece(ps[0], at) + PieceEdits(ps[1..], at + |Text(ps[0])|)
  }

  /** The edits, made at once, turn the stream from `at` on into `text`. */
  predicate Give(tags: seq<Tag>, edits: seq<Edit<Tag>>, at: nat, text: seq<Tag>) {
    at <= |tags| && Apart(tags, edits, at) && Simultaneous(tags, edits, at) == text
  }

  lemma GiveEdit(tags: seq<Tag>, e: Edit<Tag>, rest: seq<Edit<Tag>>, text: seq<Tag>)
    requires e.start <= e.end && Give(tags, rest, e.end, text)
    ensures Give(tags, [e] + rest, e.start, e.text + text)
  {
    Cons(e, rest);
    assert tags[e.start..e.start] == [];
    Unit(e.text);
  }

  lemma GiveCopy(tags: seq<Tag>, edits: seq<Edit<Tag>>, at: nat, mid: nat, text: seq<Tag>)
    requires at <= mid && Give(tags, edits, mid, text)
    ensures Give(tags, [] + edits, at, tags[at..mid] + text)
  {
    CopiesBefore(tags, edits, at, mid);
    Unit(edits);
  }

  lemma GivePiece(tags: seq<Tag>, p: Piece, at: nat, rest: seq<Edit<Tag>>, text: seq<Tag>)
    requires at + |Text(p)| <= |tags| && tags[at..at + |Text(p)|] == Text(p)
    requires Give(tags, rest, at + |Text(p)|, text)
    ensures Give(tags, EditOfPiece(p, at) + rest, at, NewText(p) + text)
  {
    if p.Block? && Overflows(p.section) {
      GiveEdit(tags, Edit(at, at + |Text(p)|, NewText(p)), rest, text);
    } else {
      GiveCopy(tags, rest, at, at + |Text(p)|, text);
    }
  }

  /** Editing the pieces where they lie gives their new text. */
  lemma {:induction false} PieceEditsGive(tags: seq<Tag>, ps: seq<Piece>, at: nat)
    requires at <= |tags| && tags[at..] == Flat(ps)
    ensures Give(tags, PieceEdits(ps, at), at, NewFlat(ps))
    decreases ps
  {
    if ps != [] {
      SplitAt(tags, at, Text(ps[0]), Flat(ps[1..]));
      PieceEditsGive(tags, ps[1..], at + |Text(ps[0])|);
      GivePiece(tags, ps[0], at, PieceEdits(ps[1..], at + |Text(ps[0])|), NewFlat(ps[1..]));
    }
  }

  /** Where a section overflows, its property can be edited. */
  predicate Fit(p: Piece) {
    p.Block? && Overflows(p.section) ==> Editable(p.sect)
  }

  predicate AllFit(ps: seq<Piece>) {
    forall i :: 0 <= i < |ps| ==> Fit(ps[i])
  }

  /** No section from the `m`-th on overflows. */
  predicate IdleFrom(sections: seq<Section>, m: nat) {
    forall j :: m <= j < |sections| ==> !Overflows(sections[j])
  }

  /**
   * The stream from `at` on is that of these pieces; the sections from `k` on, and their blocks, are those
   * the pieces start with, and no further piece overflows.
   */
  predicate PiecesAt(tags: seq<Tag>, ps: seq<Piece>, at: nat, sections: seq<Section>, blocks: seq<Span>, k: nat) {
    AllFit(ps) && at <= |tags| && tags[at..] == Flat(ps) &&
    Within(blocks, |tags|) && k <= |sections| <= |blocks| &&
    blocks[k..|sections|] <= SpansOf(ps, at) && sections[k..|sections|] <= BlockSections(ps) &&
    IdleFrom(BlockSections(ps), |sections| - k)
  }

  lemma FitRest(ps: seq<Piece>)
    requires ps != [] && AllFit(ps)
    ensures AllFit(ps[1..]) && Fit(ps[0])
  {
  }

  lemma AfterBlock(tags: seq<Tag>, ps: seq<Piece>, at: nat, sections: seq<Section>, blocks: seq<Span>, k: nat)
    requires ps != [] && ps[0].Block? && PiecesAt(tags, ps, at, sections, blocks, k) && k < |sections|
    ensures PiecesAt(tags, ps[1..], at + |Text(ps[0])|, sections, blocks, k + 1)
    ensures EditOf(tags, sections[k], blocks, k) == EditOfPiece(ps[0], at)
  {
    var p, rest, mid := ps[0], ps[1..], at + |Text(ps[0])|;
    SplitAt(tags, at, Text(p), Flat(rest));
    NextOfStart(blocks, k, |sections|, Span(at, mid), SpansOf(rest, mid));
    NextOfStart(sections, k, |sections|, p.section, BlockSections(rest));
    FitRest(ps);
    IdleRest(p.section, BlockSections(rest), |sections| - k);
    if Overflows(p.section) { EditedBlockIsEditedSect(p.sect, p.section); }
  }

  lemma IdleRest(s: Section, rest: seq<Section>, m: nat)
    requires 0 < m && IdleFrom([s] + rest, m)
    ensures IdleFrom(rest, m - 1)
  {
    assert forall j :: 0 <= j < |rest| ==> ([s] + rest)[j + 1] == rest[j];
  }

  lemma AfterGap(tags: seq<Tag>, ps: seq<Piece>, at: nat, sections: seq<Section>, blocks: seq<Span>, k: nat)
    requires ps != [] && ps[0].Gap? && PiecesAt(tags, ps, at, sections, blocks, k)
    ensures PiecesAt(tags, ps[1..], at + |Text(ps[0])|, sections, blocks, k)
  {
    SplitAt(tags, at, Text(ps[0]), Flat(ps[1..]));
    FitRest(ps);
    Unit(SpansOf(ps[1..], at + |Text(ps[0])|));
  }

  lemma {:induction false} IdlePieces(ps: seq<Piece>, at: nat)
    requires IdleFrom(BlockSections(ps), 0)
    ensures PieceEdits(ps, at) == []
    decreases ps
  {
    if ps != [] {
      if ps[0].Block? {
        assert BlockSections(ps)[0] == ps[0].section;
        IdleRest(ps[0].section, BlockSections(ps[1..]), 1);
      }
      IdlePieces(ps[1..], at + |Text(ps[0])|);
    }
  }

  /** The edits the normalizer plans are the edits of the pieces. */
  lemma {:induction false} PlannedEdits(tags: seq<Tag>, ps: seq<Piece>, at: nat, sections: seq<Section>,
      blocks: seq<Span>, k: nat)
    requires PiecesAt(tags, ps, at, sections, blocks, k)
    ensures EditsFrom(tags, sections, blocks, k) == PieceEdits(ps, at)
    decreases ps
  {
    if k == |sections| {
      IdlePieces(ps, at);
    } else if ps != [] && ps[0].Block? {
      AfterBlock(tags, ps, at, sections, blocks, k);
      PlannedEdits(tags, ps[1..], at + |Text(ps[0])|, sections, blocks, k + 1);
    } else if ps != [] {
      AfterGap(tags, ps, at, sections, blocks, k);
      PlannedEdits(tags, ps[1..], at + |Text(ps[0])|, sections, blocks, k);
      Unit(PieceEdits(ps[1..], at + |Text(ps[0])|));
    }
  }

  // ----- streams that differ only in page geometry -----

  predicate SameTag(t: Tag, u: Tag) {
    t == u || (t.Void? && u.Void? && t.name == u.name && (t.name.PgSz? || t.name.PgMar?))
  }

  predicate SameShape(ts: seq<Tag>, us: seq<Tag>) {
    |ts| == |us| && forall i :: 0 <= i < |ts| ==> SameTag(ts[i], us[i])
  }

  predicate SameGeometry(g: Option<Geometry>, h: Option<Geometry>) {
    g.Some? == h.Some? && (g.Some? ==> g.value.size.Some? == h.value.size.Some?)
  }

  /** The same machine state but for the page geometry it has read. */
  predicate SameState(s: State, t: State) {
    s.table == t.table && s.stack == t.stack &&
    s.sect.paraDepth == t.sect.paraDepth && s.sect.bodyLevel == t.sect.bodyLevel &&
    SameGeometry(s.sect.pending, t.sect.pending) &&
    s.buckets.maxTw == t.buckets.maxTw && s.buckets.maxEmu == t.buckets.maxEmu &&
    SameContents(s.buckets.sections, t.buckets.sections)
  }

  predicate SameContents(ss: seq<Section>, ts: seq<Section>) {
    |ss| == |ts| && forall k :: 0 <= k < |ss| ==> ss[k].index == ts[k].index && ss[k].contentTw == ts[k].contentTw
  }

  lemma SameOpen(s: State, t: State, name: Name, a: Attrs, b: Attrs)
    requires SameState(s, t) && (a == b || name.PgSz? || name.PgMar?)
    ensures SameState(StepOpen(s, name, a), StepOpen(t, name, b))
  {
    if name == Extent {
      BankOne(s.buckets, Image(a.cx));
      BankOne(t.buckets, Image(a.cx));
    }
  }

  lemma BankSame(b: Buckets, c: Buckets, items: seq<Item>, others: seq<Item>)
    requires b.maxTw == c.maxTw && b.maxEmu == c.maxEmu && SameContents(b.sections, c.sections)
    requires |items| == |others| <= 1
    requires items != [] ==> items[0] == others[0] || (items[0].Break? && others[0].Break?)
    ensures var d, e := BankAll(b, items), BankAll(c, others);
            d.maxTw == e.maxTw && d.maxEmu == e.maxEmu && SameContents(d.sections, e.sections)
  {
    if items != [] {
      assert items == [items[0]] && others == [others[0]];
      BankOne(b, items[0]);
      BankOne(c, others[0]);
    }
  }

  lemma SameClose(s: State, t: State, name: Name)
    requires SameState(s, t)
    ensures SameState(StepClose(s, name), StepClose(t, name))
  {
    var table, mine, theirs := TableBanked(s.table, name), SectBanked(s.sect, name, s.stack),
      SectBanked(t.sect, name, t.stack);
    BankSame(s.buckets, t.buckets, table + mine, table + theirs);
  }

  /** Page geometry decides neither where sections end nor how wide their content is. */
  lemma {:induction false} GeometryIsInert(s: State, t: State, ts: seq<Tag>, us: seq<Tag>)
    requires SameState(s, t) && SameShape(ts, us)
    ensures SameState(Run(s, ts), Run(t, us))
    decreases ts
  {
    if ts != [] {
      var a, b := ts[0], us[0];
      if a.Close? {
        SameClose(s, t, a.name);
      } else {
        SameOpen(s, t, a.name, a.attrs, b.attrs);
        if a.Void? {
          SameClose(StepOpen(s, a.name, a.attrs), StepOpen(t, a.name, b.attrs), a.name);
        }
      }
      assert SameShape(ts[1..], us[1..]);
      GeometryIsInert(Step(s, a), Step(t, b), ts[1..], us[1..]);
    }
  }

  lemma {:induction false} ChangeKeepsShape(block: seq<Tag>, c: Change)
    ensures SameShape(block, ChangeFirst(block, c))
    decreases block
  {
    if block != [] && !(block[0].Void? && block[0].name == Target(c)) {
      ChangeKeepsShape(block[1..], c);
    }
  }

  lemma SameShapeTrans(ts: seq<Tag>, us: seq<Tag>, vs: seq<Tag>)
    requires SameShape(ts, us) && SameShape(us, vs)
    ensures SameShape(ts, vs)
  {
    forall i | 0 <= i < |ts| ensures SameTag(ts[i], vs[i]) {
      assert SameTag(ts[i], us[i]) && SameTag(us[i], vs[i]);
    }
  }

  lemma {:induction false} NewFlatKeepsShape(ps: seq<Piece>)
    requires AllFit(ps)
    ensures SameShape(Flat(ps), NewFlat(ps))
    decreases ps
  {
    if ps != [] {
      var p := ps[0];
      FitRest(ps);
      NewFlatKeepsShape(ps[1..]);
      if p.Block? && Overflows(p.section) {
        EditedBlockIsEditedSect(p.sect, p.section);
        var turned := ChangeFirst(Text(p), TurnOf(p.section));
        ChangeKeepsShape(Text(p), TurnOf(p.section));
        if NeedsTrim(p.section) {
          ChangeKeepsShape(turned, TrimOf(p.section));
          SameShapeTrans(Text(p), turned, NewText(p));
        }
      }
      assert SameShape(Text(p), NewText(p));
    }
  }

  // ----- the k-th section is ended by the k-th sectPr -----

  function Breaks(items: seq<Item>): seq<Item> {
    if items == [] then []
    else if items[0].Break? then [items[0]] + Breaks(items[1..])
    else Breaks(items[1..])
  }

  function BreakAt(p: Property): seq<Item> {
    if EndsSection(p) then BreakOf(GeomOf(p.sect)) else []
  }

  function BreaksAt(ps: seq<Property>): seq<Item> {
    if ps == [] then [] else BreakAt(ps[0]) + BreaksAt(ps[1..])
  }

  lemma {:induction false} BreaksConcat(xs: seq<Item>, ys: seq<Item>)
    ensures Breaks(xs + ys) == Breaks(xs) + Breaks(ys)
    decreases xs
  {
    if xs == [] {
      assert xs + ys == ys;
    } else {
      HeadOf(xs, ys);
      BreaksConcat(xs[1..], ys);
    }
  }

  lemma {:induction false} BreaksAtConcat(xs: seq<Property>, ys: seq<Property>)
    ensures BreaksAt(xs + ys) == BreaksAt(xs) + BreaksAt(ys)
    decreases xs
  {
    if xs == [] {
      Unit(ys);
    } else {
      HeadOf(xs, ys);
      BreaksAtConcat(xs[1..], ys);
      Associative(BreakAt(xs[0]), BreaksAt(xs[1..]), BreaksAt(ys));
    }
  }

  lemma {:induction false} NoProperties(ns: seq<Node>, parent: Name)
    requires SectCountAll(ns) == 0
    ensures PropertiesAll(ns, parent) == []
    decreases ns
  {
    if ns != [] {
      NoProperties(ns[0].kids, ns[0].name);
      NoProperties(ns[1..], parent);
    }
  }

  lemma {:induction false} NoSects(ns: seq<Node>)
    requires SectCountAll(ns) == 0
    ensures SectsAll(ns) == []
    decreases ns
  {
    if ns != [] {
      NoSects(ns[0].kids);
      NoSects(ns[1..]);
    }
  }

  /** The breaks of a subtree are its section properties, but for one handed to the paragraph around it. */
  predicate Aligned(items: seq<Item>, props: seq<Property>, exposed: Option<Geometry>) {
    match exposed
    case None => Breaks(items) == BreaksAt(props)
    case Some(g) => Breaks(items) == [] && BreaksAt(props) == BreakOf(g)
  }

  lemma BreaksOfBreak(g: Geometry)
    ensures Breaks(BreakOf(g)) == BreakOf(g)
  {
  }

  lemma BreaksOfNode(n: Node, parent: Name, depth: nat)
    ensures Breaks(Items(n, parent, depth))
         == Breaks(ItemsAll(n.kids, n.name, DepthInside(n, depth))) + Breaks(Ending(n, parent, depth))
  {
    var opening, middle := OpenBanked(n.name, n.attrs), ItemsAll(n.kids, n.name, DepthInside(n, depth));
    BreaksConcat(opening, middle);
    BreaksConcat(opening + middle, Ending(n, parent, depth));
    assert Breaks(opening) == [];
    Unit(Breaks(middle));
  }

  lemma SectAligned(n: Node, parent: Name, depth: nat)
    requires n.name.SectPr? && PagePropsAll(n.kids)
    ensures Aligned(Items(n, parent, depth), Properties(n, parent), Exposed(n, parent))
  {
    BreaksOfNode(n, parent, depth);
    QuietItems(n.kids, n.name, DepthInside(n, depth), false);
    BreaksOfBreak(GeomOf(n));
    Single(Property(n, parent == Body));
    Unit(BreakAt(Property(n, parent == Body)));
    Unit(Breaks(Ending(n, parent, depth)));
  }

  lemma GridAligned(n: Node, parent: Name, depth: nat)
    requires n.name.TblGrid? && GridColsAll(n.kids)
    ensures Aligned(Items(n, parent, depth), Properties(n, parent), Exposed(n, parent))
  {
    BreaksOfNode(n, parent, depth);
    QuietItems(n.kids, n.name, DepthInside(n, depth), true);
    NoSectInGrid(n.kids);
    NothingExposed(n.kids, n.name);
    NoProperties(n.kids, n.name);
  }

  lemma {:induction false} NodeAligned(n: Node, parent: Name, inPara: bool, depth: nat)
    requires Shaped(n, parent, inPara) && (inPara ==> SectCount(n) <= 1)
    ensures Aligned(Items(n, parent, depth), Properties(n, parent), Exposed(n, parent))
    decreases n
  {
    if n.name.SectPr? {
      SectAligned(n, parent, depth);
    } else if n.name.TblGrid? {
      GridAligned(n, parent, depth);
    } else {
      BreaksOfNode(n, parent, depth);
      NodesAligned(n.kids, n.name, InParaBelow(n, inPara), DepthInside(n, depth));
      Unit(Breaks(ItemsAll(n.kids, n.name, DepthInside(n, depth))));
      if n.name.P? && ExposedAll(n.kids, P).Some? { BreaksOfBreak(ExposedAll(n.kids, P).value); }
    }
  }

  /** Of two neighbours, one may hand a geometry on when the other holds no section property. */
  lemma AlignedBoth(xs: seq<Item>, ys: seq<Item>, ps: seq<Property>, qs: seq<Property>, e: Option<Geometry>,
      f: Option<Geometry>)
    requires Aligned(xs, ps, e) && Aligned(ys, qs, f)
    requires (e.Some? ==> qs == [] && f.None?) && (f.Some? ==> ps == [] && e.None?)
    ensures Aligned(xs + ys, ps + qs, if e.Some? then e else f)
  {
    BreaksConcat(xs, ys);
    BreaksAtConcat(ps, qs);
  }

  /** In a paragraph one sibling at most holds the section property; elsewhere none is handed on. */
  lemma OneExposes(ns: seq<Node>, parent: Name, inPara: bool)
    requires ns != [] && ShapedAll(ns, parent, inPara) && (inPara ==> SectCountAll(ns) <= 1)
    ensures var e, f := Exposed(ns[0], parent), ExposedAll(ns[1..], parent);
            (e.Some? ==> PropertiesAll(ns[1..], parent) == [] && f.None?) &&
            (f.Some? ==> Properties(ns[0], parent) == [] && e.None?)
  {
    var n := ns[0];
    if !inPara {
      OnlyParagraphsExpose(n, parent);
      OnlyParagraphsExposeAll(ns[1..], parent);
    } else if SectCount(n) == 0 {
      NothingExposed(n.kids, n.name);
      NoProperties(n.kids, n.name);
    } else {
      NothingExposed(ns[1..], parent);
      NoProperties(ns[1..], parent);
    }
  }

  lemma {:induction false} NodesAligned(ns: seq<Node>, parent: Name, inPara: bool, depth: nat)
    requires ShapedAll(ns, parent, inPara) && (inPara ==> SectCountAll(ns) <= 1)
    ensures Aligned(ItemsAll(ns, parent, depth), PropertiesAll(ns, parent), ExposedAll(ns, parent))
    decreases ns
  {
    if ns != [] {
      var n, rest := ns[0], ns[1..];
      NodeAligned(n, parent, inPara, depth);
      NodesAligned(rest, parent, inPara, depth);
      OneExposes(ns, parent, inPara);
      AlignedBoth(Items(n, parent, depth), ItemsAll(rest, parent, depth), Properties(n, parent),
        PropertiesAll(rest, parent), Exposed(n, parent), ExposedAll(rest, parent));
    }
  }

  /** Every section is ended by its own break. */
  lemma {:induction false} SectionsFollowBreaks(items: seq<Item>)
    ensures |SectionsOf(items)| == |Breaks(items)|
    ensures forall k :: 0 <= k < |SectionsOf(items)| ==>
              var b := Breaks(items)[k];
              b.Break? && SectionsOf(items)[k] == Ended(k, b.size, b.left, b.right, SectionsOf(items)[k].contentTw)
  {
    if items != [] {
      var before, last := items[..|items| - 1], items[|items| - 1];
      SectionsFollowBreaks(before);
      BreaksConcat(before, [last]);
      InitLast(items);
      Single(last);
      assert Breaks([last]) == if last.Break? then [last] else [];
    }
  }

  /** Section `k` has the page of this property. */
  predicate HasPageOf(s: Section, p: Property, k: nat) {
    var g := GeomOf(p.sect);
    g.size.Some? && s == Ended(k, g.size.value, g.left, g.right, s.contentTw)
  }

  lemma {:induction false} BreaksOfEnders(ps: seq<Property>)
    ensures |BreaksAt(ps)| == |Enders(ps)|
    ensures forall k :: 0 <= k < |Enders(ps)| ==>
              GeomOf(Enders(ps)[k].sect).size.Some? && BreaksAt(ps)[k] == BreakOf(GeomOf(Enders(ps)[k].sect))[0]
    decreases ps
  {
    if ps != [] { BreaksOfEnders(ps[1..]); }
  }

  /**
   * The sections of a document are its section properties from which a page size is read and which, at
   * body level, record no revision: one section each, in order, with the page read from that property.
   */
  lemma SectionsFollowProperties(d: Node)
    requires Document(d)
    ensures var sections, enders := Parsed(Tags(d)), Enders(PropertiesAll(d.kids, d.name));
            |sections| == |enders| && forall k :: 0 <= k < |sections| ==> HasPageOf(sections[k], enders[k], k)
  {
    ParserMeetsMeaning(d);
    NodesAligned(d.kids, d.name, false, 0);
    OnlyParagraphsExposeAll(d.kids, d.name);
    SectionsFollowBreaks(ItemsAll(d.kids, d.name, 0));
    BreaksOfEnders(PropertiesAll(d.kids, d.name));
  }

  function NodesOf(ps: seq<Property>): seq<Node> {
    if ps == [] then [] else [ps[0].sect] + NodesOf(ps[1..])
  }

  lemma {:induction false} NodesConcat(ps: seq<Property>, qs: seq<Property>)
    ensures NodesOf(ps + qs) == NodesOf(ps) + NodesOf(qs)
    decreases ps
  {
    if ps == [] {
      Unit(qs);
    } else {
      HeadOf(ps, qs);
      NodesConcat(ps[1..], qs);
      Associative([ps[0].sect], NodesOf(ps[1..]), NodesOf(qs));
    }
  }

  lemma {:induction false} NodesOfProperties(n: Node, parent: Name)
    ensures NodesOf(Properties(n, parent)) == Sects(n)
    decreases n
  {
    if n.name == SectPr {
      Single(Property(n, parent == Body));
    } else {
      NodesOfAllProperties(n.kids, n.name);
    }
  }

  lemma {:induction false} NodesOfAllProperties(ns: seq<Node>, parent: Name)
    ensures NodesOf(PropertiesAll(ns, parent)) == SectsAll(ns)
    decreases ns
  {
    if ns != [] {
      NodesOfProperties(ns[0], parent);
      NodesOfAllProperties(ns[1..], parent);
      NodesConcat(Properties(ns[0], parent), PropertiesAll(ns[1..], parent));
    }
  }

  // ----- the geometry of an edited sectPr -----

  lemma {:induction false} InertGeom(g: Geometry, ns: seq<Node>)
    requires InertAll(ns)
    ensures GeomAll(g, ns) == g
    decreases ns
  {
    if ns != [] {
      InertGeom(g, ns[0].kids);
      InertGeom(g, ns[1..]);
    }
  }

  /** Page size and margins are read independently; without an element the old value stays. */
  lemma {:induction false} GeomParts(g: Geometry, h: Geometry, ns: seq<Node>)
    requires PlainProps(ns)
    ensures CountNamed(ns, PgSz) == 0 ==> GeomAll(g, ns).size == g.size
    ensures CountNamed(ns, PgSz) > 0 ==> GeomAll(g, ns).size.Some? && GeomAll(g, ns).size == GeomAll(h, ns).size
    ensures CountNamed(ns, PgMar) == 0 ==> GeomAll(g, ns).left == g.left && GeomAll(g, ns).right == g.right
    ensures CountNamed(ns, PgMar) > 0 || (g.left == h.left && g.right == h.right) ==>
              GeomAll(g, ns).left == GeomAll(h, ns).left && GeomAll(g, ns).right == GeomAll(h, ns).right
    decreases ns
  {
    if ns != [] {
      InertOrLeaf(g, ns[0]);
      InertOrLeaf(h, ns[0]);
      GeomParts(Geom(g, ns[0]), Geom(h, ns[0]), ns[1..]);
      GeomParts(Geom(h, ns[0]), Geom(g, ns[0]), ns[1..]);
    }
  }

  lemma InertOrLeaf(g: Geometry, n: Node)
    requires PlainProp(n)
    ensures Geom(g, n) ==
              match n.name
              case PgSz => g.(size := Some(PageSize(n.attrs.w, n.attrs.h, n.attrs.orient)))
              case PgMar => g.(left := n.attrs.left, right := n.attrs.right)
              case _ => g
  {
    if !n.name.PgSz? && !n.name.PgMar? { InertGeom(g, n.kids); }
  }

  function GeomAfter(g: Geometry, c: Change): Geometry {
    match c
    case Turn(w, h) => g.(size := Some(PageSize(Max(w, h), Min(w, h), Some(Landscape))))
    case Trim(pageW, contentTw) => g.(left := TrimmedSide(pageW, contentTw), right := TrimmedSide(pageW, contentTw))
  }

  lemma {:induction false} ChangedGeom(g: Geometry, ns: seq<Node>, c: Change)
    requires PlainProps(ns) && CountNamed(ns, Target(c)) == 1
    ensures GeomAll(g, ChangedKids(ns, c)) == GeomAfter(GeomAll(g, ns), c)
    decreases ns
  {
    var first, rest := ns[0], ns[1..];
    var changed := ChangedKids(ns, c);
    InertOrLeaf(g, first);
    assert changed[1..] == ChangedKids(rest, c);
    if first.name == Target(c) {
      UntargetedKids(rest, c);
      InertOrLeaf(g, changed[0]);
      GeomParts(Geom(g, changed[0]), Geom(g, first), rest);
      GeomParts(Geom(g, first), Geom(g, changed[0]), rest);
    } else {
      ChangedGeom(Geom(g, first), rest, c);
    }
  }

  /** A section read from the rewritten `sectPr` is the rotated section. */
  lemma EditedGeometry(sect: Node, index: nat, contentTw: int)
    requires Editable(sect)
    ensures GeomOf(sect).size.Some?
    ensures var g := GeomOf(sect);
            var s := Ended(index, g.size.value, g.left, g.right, contentTw);
            var g' := GeomOf(EditedSect(sect, s));
            g'.size.Some? && Ended(index, g'.size.value, g'.left, g'.right, contentTw) == Rotated(s, HasMargins(sect))
  {
    var none := Geometry(None, 0, 0);
    GeomParts(none, none, sect.kids);
    var g := GeomOf(sect);
    var s := Ended(index, g.size.value, g.left, g.right, contentTw);
    var turned := ChangedKids(sect.kids, TurnOf(s));
    ChangedGeom(none, sect.kids, TurnOf(s));
    ChangedKidsKeepShape(sect.kids, TurnOf(s));
    if NeedsTrim(s) {
      if HasMargins(sect) {
        ChangedGeom(none, turned, TrimOf(s));
      } else {
        UntargetedKids(turned, TrimOf(s));
      }
    }
  }

  // ----- the rewritten document is a document -----

  lemma {:induction false} PlainPropsArePageProps(ns: seq<Node>)
    requires PlainProps(ns)
    ensures PagePropsAll(ns)
    decreases ns
  {
    if ns != [] {
      if !ns[0].name.PgSz? && !ns[0].name.PgMar? { InertArePageProps(ns[0].kids); }
      PlainPropsArePageProps(ns[1..]);
    }
  }

  lemma {:induction false} InertArePageProps(ns: seq<Node>)
    requires InertAll(ns)
    ensures PagePropsAll(ns)
    decreases ns
  {
    if ns != [] {
      InertArePageProps(ns[0].kids);
      InertArePageProps(ns[1..]);
    }
  }

  lemma {:induction false} NoSectsUnchanged(ns: seq<Node>)
    requires SectsAll(ns) == []
    ensures RewrittenAll(ns, []) == ns
    decreases ns
  {
    if ns != [] {
      assert Sects(ns[0]) == [] && SectsAll(ns[1..]) == [];
      NoSectsUnchanged(ns[0].kids);
      NoSectsUnchanged(ns[1..]);
    }
  }

  lemma NewSectEditable(sect: Node, s: Section)
    requires Editable(sect)
    ensures Editable(NewSect(sect, s)) && PagePropsAll(NewSect(sect, s).kids)
  {
    EditedBlockIsEditedSect(sect, s);
    PlainPropsArePageProps(NewSect(sect, s).kids);
  }

  /** Where a section overflows, the property in its place can be edited. */
  predicate Suits(sects: seq<Node>, sections: seq<Section>) {
    |sects| == |sections| && forall k :: 0 <= k < |sects| ==> Overflows(sections[k]) ==> Editable(sects[k])
  }

  lemma SuitsParts(xs: seq<Node>, ys: seq<Node>, sections: seq<Section>)
    requires Suits(xs + ys, sections)
    ensures Suits(xs, sections[..|xs|]) && Suits(ys, sections[|xs|..])
  {
    assert forall k :: 0 <= k < |ys| ==> (xs + ys)[|xs| + k] == ys[k];
  }

  /** Rewriting keeps the shape of a document, its rows and the number of its sections. */
  lemma {:induction false} RewrittenShaped(n: Node, parent: Name, inPara: bool, sections: seq<Section>)
    requires Suits(Sects(n), sections) && Shaped(n, parent, inPara)
    ensures var m := Rewritten(n, sections);
            m.name == n.name && Shaped(m, parent, inPara) && NoRow(m) == NoRow(n) && SectCount(m) == SectCount(n)
    decreases n
  {
    if n.name.SectPr? {
      if Overflows(sections[0]) { NewSectEditable(n, sections[0]); }
      PagePropsNoRow(n.kids);
      PagePropsNoRow(NewSect(n, sections[0]).kids);
    } else if n.name.TblGrid? {
      NoSectInGrid(n.kids);
      NoSects(n.kids);
      NoSectsUnchanged(n.kids);
    } else {
      RewrittenAllShaped(n.kids, n.name, n.name.P? || (inPara && !n.name.Body?), sections);
    }
  }

  lemma {:induction false} PagePropsNoRow(ns: seq<Node>)
    requires PagePropsAll(ns)
    ensures NoRowAll(ns)
    decreases ns
  {
    if ns != [] {
      PagePropsNoRow(ns[0].kids);
      PagePropsNoRow(ns[1..]);
    }
  }

  lemma {:induction false} RewrittenAllShaped(ns: seq<Node>, parent: Name, inPara: bool, sections: seq<Section>)
    requires Suits(SectsAll(ns), sections) && ShapedAll(ns, parent, inPara)
    ensures var ms := RewrittenAll(ns, sections);
            ShapedAll(ms, parent, inPara) && NoRowAll(ms) == NoRowAll(ns) && SectCountAll(ms) == SectCountAll(ns)
    decreases ns
  {
    if ns != [] {
      var c := |Sects(ns[0])|;
      SuitsParts(Sects(ns[0]), SectsAll(ns[1..]), sections);
      RewrittenShaped(ns[0], parent, inPara, sections[..c]);
      RewrittenAllShaped(ns[1..], parent, inPara, sections[c..]);
      assert RewrittenAll(ns, sections)[1..] == RewrittenAll(ns[1..], sections[c..]);
    }
  }

  /** The k-th sectPr of the rewritten tree is the k-th sectPr rewritten. */
  predicate RewrittenProperties(before: seq<Property>, after: seq<Property>, sections: seq<Section>) {
    |before| == |after| == |sections| &&
    forall k :: 0 <= k < |before| ==> after[k] == Property(NewSect(before[k].sect, sections[k]), before[k].atBody)
  }

  lemma {:induction false} PropertyCount(n: Node, parent: Name)
    ensures |Properties(n, parent)| == |Sects(n)|
    decreases n
  {
    if n.name != SectPr { PropertyCountAll(n.kids, n.name); }
  }

  lemma {:induction false} PropertyCountAll(ns: seq<Node>, parent: Name)
    ensures |PropertiesAll(ns, parent)| == |SectsAll(ns)|
    decreases ns
  {
    if ns != [] {
      PropertyCount(ns[0], parent);
      PropertyCountAll(ns[1..], parent);
    }
  }

  lemma {:induction false} PropertiesOfRewritten(n: Node, parent: Name, sections: seq<Section>)
    requires |sections| == |Sects(n)|
    ensures RewrittenProperties(Properties(n, parent), Properties(Rewritten(n, sections), parent), sections)
    decreases n
  {
    if n.name != SectPr { PropertiesOfRewrittenAll(n.kids, n.name, sections); }
  }

  lemma {:induction false} PropertiesOfRewrittenAll(ns: seq<Node>, parent: Name, sections: seq<Section>)
    requires |sections| == |SectsAll(ns)|
    ensures RewrittenProperties(PropertiesAll(ns, parent), PropertiesAll(RewrittenAll(ns, sections), parent), sections)
    decreases ns
  {
    if ns != [] {
      var c := |Sects(ns[0])|;
      PropertyCount(ns[0], parent);
      PropertiesOfRewritten(ns[0], parent, sections[..c]);
      PropertiesOfRewrittenAll(ns[1..], parent, sections[c..]);
      Cons(Rewritten(ns[0], sections[..c]), RewrittenAll(ns[1..], sections[c..]));
      RewrittenBoth(Properties(ns[0], parent), Properties(Rewritten(ns[0], sections[..c]), parent),
        PropertiesAll(ns[1..], parent), PropertiesAll(RewrittenAll(ns[1..], sections[c..]), parent), sections, c);
    }
  }

  lemma RewrittenBoth(before: seq<Property>, after: seq<Property>, rest: seq<Property>, restAfter: seq<Property>,
      sections: seq<Section>, c: nat)
    requires c <= |sections| && RewrittenProperties(before, after, sections[..c])
    requires RewrittenProperties(rest, restAfter, sections[c..])
    ensures RewrittenProperties(before + rest, after + restAfter, sections)
  {
  }

  // ----- the main results -----

  /** The first `m` properties can be edited, and no other ends a section. */
  predicate Leading(props: seq<Property>, m: nat) {
    m <= |props| && (forall k :: 0 <= k < m ==> Editable(props[k].sect)) &&
    forall k :: m <= k < |props| ==> !EndsSection(props[k])
  }

  /**
   * A document that can be edited: the properties that end its sections come before all others, each in the
   * form the edit expects. What comes after them may lack a size or record a revision.
   */
  predicate EditableDocument(d: Node) {
    var props := PropertiesAll(d.kids, d.name);
    Document(d) && Leading(props, |Enders(props)|)
  }

  lemma EditableEnds(p: Property)
    requires Editable(p.sect)
    ensures EndsSection(p)
  {
    EditableClosesOnce(p.sect);
    GeomParts(Geometry(None, 0, 0), Geometry(None, 0, 0), p.sect.kids);
  }

  lemma {:induction false} LeadingEnd(ps: seq<Property>, m: nat)
    requires Leading(ps, m)
    ensures Enders(ps) == ps[..m]
    decreases ps
  {
    if ps != [] {
      var rest := ps[1..];
      assert forall k :: 0 <= k < |rest| ==> rest[k] == ps[k + 1];
      if m > 0 {
        EditableEnds(ps[0]);
        LeadingEnd(rest, m - 1);
        FirstRest(ps);
        TakeCons(ps[0], rest, m);
      } else {
        LeadingEnd(rest, 0);
      }
    }
  }

  lemma {:induction false} NodeAt(ps: seq<Property>, k: nat)
    requires k < |ps|
    ensures k < |NodesOf(ps)| && NodesOf(ps)[k] == ps[k].sect
    decreases ps
  {
    if k > 0 { NodeAt(ps[1..], k - 1); }
  }

  /** In an editable document the sections are those of the first section properties, one to one. */
  lemma SectionsAlign(d: Node)
    requires EditableDocument(d)
    ensures var sections, props := Parsed(Tags(d)), PropertiesAll(d.kids, d.name);
            Leading(props, |sections|) && |SectsAll(d.kids)| == |props| &&
            forall k :: 0 <= k < |sections| ==>
              HasPageOf(sections[k], props[k], k) && SectsAll(d.kids)[k] == props[k].sect
  {
    var sections, props := Parsed(Tags(d)), PropertiesAll(d.kids, d.name);
    SectionsFollowProperties(d);
    NodesOfAllProperties(d.kids, d.name);
    PropertyCountAll(d.kids, d.name);
    LeadingEnd(props, |Enders(props)|);
    forall k | 0 <= k < |sections|
      ensures HasPageOf(sections[k], props[k], k) && SectsAll(d.kids)[k] == props[k].sect
    {
      assert HasPageOf(sections[k], Enders(props)[k], k);
      NodeAt(props, k);
    }
  }

  /** In the place of a property that ends no section. */
  const IDLE := Section(0, 0, 0, Portrait, 0, 0, 0)

  /** The sections of a document, and a section that never overflows for every other property. */
  function Padded(sections: seq<Section>, count: nat): (r: seq<Section>)
    requires |sections| <= count
    ensures |r| == count && sections <= r && IdleFrom(r, |sections|)
  {
    sections + seq(count - |sections|, i => IDLE)
  }

  function SectionsOfSects(d: Node): (r: seq<Section>)
    requires EditableDocument(d)
    ensures |r| == |SectsAll(d.kids)| && Parsed(Tags(d)) <= r && IdleFrom(r, |Parsed(Tags(d))|)
  {
    SectionsAlign(d);
    Padded(Parsed(Tags(d)), |SectsAll(d.kids)|)
  }

  /** The document with the page geometry of every overflowing section rewritten. */
  function RewrittenDocument(d: Node): Node
    requires EditableDocument(d)
  {
    d.(kids := RewrittenAll(d.kids, SectionsOfSects(d)))
  }

  lemma SectionsSuit(d: Node)
    requires EditableDocument(d)
    ensures Suits(SectsAll(d.kids), SectionsOfSects(d))
  {
    SectionsAlign(d);
  }

  lemma {:induction false} SuitsFit(ps: seq<Piece>)
    requires Suits(BlockSects(ps), BlockSections(ps))
    ensures AllFit(ps)
    decreases ps
  {
    if ps != [] {
      if ps[0].Block? {
        Cons(ps[0].sect, BlockSects(ps[1..]));
        Cons(ps[0].section, BlockSections(ps[1..]));
        SuitsFirst(BlockSects(ps), BlockSections(ps));
      }
      SuitsFit(ps[1..]);
    }
  }

  lemma SuitsFirst(sects: seq<Node>, sections: seq<Section>)
    requires Suits(sects, sections) && sects != []
    ensures (Overflows(sections[0]) ==> Editable(sects[0])) && Suits(sects[1..], sections[1..])
  {
    assert forall k :: 0 <= k < |sects| - 1 ==> sects[1..][k] == sects[k + 1] && sections[1..][k] == sections[k + 1];
  }

  /** What the pieces of a document are to the normalizer: the sections parsed, and the blocks that align. */
  predicate AlignedPieces(ps: seq<Piece>, tags: seq<Tag>) {
    Separated(ps) && AllFit(ps) && Flat(ps) == tags && LeadingCloseOnce(BlockSects(ps), |Parsed(tags)|) &&
    Parsed(tags) <= BlockSections(ps) && IdleFrom(BlockSections(ps), |Parsed(tags)|)
  }

  /** The edits of a document, made at once, give the new text of its pieces. */
  lemma NormalizedIsNewFlat(ps: seq<Piece>, tags: seq<Tag>)
    requires AlignedPieces(ps, tags)
    ensures Normalized(tags) == NewFlat(ps)
  {
    var sections, blocks := Parsed(tags), Blocks(tags, 0);
    BlocksOfPieces(ps, |sections|, 0);
    BlocksInOrder(tags, 0);
    Whole(tags);
    Whole(sections);
    assert blocks[0..|sections|] == SpansOf(ps, 0)[..|sections|];
    PlannedEdits(tags, ps, 0, sections, blocks, 0);
    PieceEditsGive(tags, ps, 0);
  }

  lemma DocumentPieces(d: Node) returns (ps: seq<Piece>)
    requires EditableDocument(d)
    ensures AlignedPieces(ps, Tags(d)) && NewFlat(ps) == Tags(RewrittenDocument(d))
  {
    var sections := SectionsOfSects(d);
    SectionsAlign(d);
    SectionsSuit(d);
    ps := Pieces(d, sections);
    PiecesOfNode(d, sections);
    SuitsFit(ps);
    forall k | 0 <= k < |Parsed(Tags(d))| ensures ClosesOnce(BlockSects(ps)[k]) {
      EditableClosesOnce(BlockSects(ps)[k]);
    }
  }

  lemma RewrittenKeepsLeading(props: seq<Property>, after: seq<Property>, sections: seq<Section>, m: nat)
    requires Leading(props, m) && RewrittenProperties(props, after, sections) && IdleFrom(sections, m)
    ensures Leading(after, m)
  {
    forall k | 0 <= k < m ensures Editable(after[k].sect) {
      NewSectEditable(props[k].sect, sections[k]);
    }
    forall k | m <= k < |after| ensures !EndsSection(after[k]) {
      assert after[k] == props[k];
    }
  }

  lemma RewrittenIsEditable(d: Node)
    requires EditableDocument(d)
    ensures EditableDocument(RewrittenDocument(d))
    ensures RewrittenProperties(PropertiesAll(d.kids, d.name), PropertiesAll(RewrittenDocument(d).kids, d.name),
              SectionsOfSects(d))
  {
    var sections, after := SectionsOfSects(d), PropertiesAll(RewrittenDocument(d).kids, d.name);
    SectionsAlign(d);
    SectionsSuit(d);
    RewrittenAllShaped(d.kids, d.name, false, sections);
    PropertiesOfRewrittenAll(d.kids, d.name, sections);
    RewrittenKeepsLeading(PropertiesAll(d.kids, d.name), after, sections, |Parsed(Tags(d))|);
    LeadingEnd(after, |Parsed(Tags(d))|);
  }

  /** The splices come out as one edit of the tree: nothing but overflowing sectPr elements changes. */
  lemma NormalizationRewritesTree(d: Node)
    requires EditableDocument(d)
    ensures Normalized(Tags(d)) == Tags(RewrittenDocument(d))
    ensures EditableDocument(RewrittenDocument(d))
    ensures RewrittenProperties(PropertiesAll(d.kids, d.name), PropertiesAll(RewrittenDocument(d).kids, d.name),
              SectionsOfSects(d))
    ensures SameShape(Tags(d), Normalized(Tags(d)))
  {
    var ps := DocumentPieces(d);
    NormalizedIsNewFlat(ps, Tags(d));
    NewFlatKeepsShape(ps);
    RewrittenIsEditable(d);
  }

  /** A section rewritten, or left as it was. */
  lemma OneSection(before: Section, after: Section, p: Property, q: Property, k: nat)
    requires Editable(p.sect) && HasPageOf(before, p, k) && HasPageOf(after, q, k)
    requires q.sect == NewSect(p.sect, before) && after.contentTw == before.contentTw
    ensures after == if Overflows(before) then Rotated(before, HasMargins(p.sect)) else before
  {
    EditedGeometry(p.sect, k, before.contentTw);
  }

  /** Exactly the overflowing portrait sections are rotated; every other section reads as before. */
  lemma NormalizedSections(d: Node)
    requires EditableDocument(d)
    ensures var before, after := Parsed(Tags(d)), Parsed(Normalized(Tags(d)));
            |after| == |before| <= |SectsAll(d.kids)| &&
            forall k :: 0 <= k < |before| ==>
              after[k] == if Overflows(before[k]) then Rotated(before[k], HasMargins(SectsAll(d.kids)[k]))
                          else before[k]
  {
    var e := RewrittenDocument(d);
    NormalizationRewritesTree(d);
    SectionsAlign(d);
    SectionsAlign(e);
    GeometryIsInert(START, START, Tags(d), Tags(e));
    var before, after := Parsed(Tags(d)), Parsed(Tags(e));
    forall k | 0 <= k < |before|
      ensures after[k] == if Overflows(before[k]) then Rotated(before[k], HasMargins(SectsAll(d.kids)[k]))
                          else before[k]
    {
      OneSection(before[k], after[k], PropertiesAll(d.kids, d.name)[k], PropertiesAll(e.kids, d.name)[k], k);
    }
  }

  lemma {:induction false} NothingToEdit(tags: seq<Tag>, sections: seq<Section>, blocks: seq<Span>, k: nat)
    requires Within(blocks, |tags|)
    requires forall i :: k <= i < |sections| ==> !Overflows(sections[i])
    ensures EditsFrom(tags, sections, blocks, k) == []
    decreases |sections| - k
  {
    if k < |sections| { NothingToEdit(tags, sections, blocks, k + 1); }
  }

  /** A second run finds nothing to change. */
  lemma SecondRunFindsNothing(d: Node)
    requires EditableDocument(d)
    ensures EditsOf(Normalized(Tags(d))) == []
    ensures Normalized(Normalized(Tags(d))) == Normalized(Tags(d))
  {
    var tags := Normalized(Tags(d));
    NormalizedSections(d);
    BlocksInOrder(tags, 0);
    NothingToEdit(tags, Parsed(tags), Blocks(tags, 0), 0);
  }
}
