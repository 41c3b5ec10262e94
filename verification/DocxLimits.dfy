/**
 * Where the parser or the rewrite misses its purpose, and exactly when: sections whose block in the
 * text is not their own, and section properties and grids that record a revision of themselves.
 */
module DocxLimits {
  import opened Options
  import opened DocxModel
  import opened DocxParser
  import opened DocxMeaning
  import opened DocxRefinement
  import opened DocxRewrite
  import opened DocxPieces
  import opened DocxNormalized
  import opened Sequences

  // ----- where the section properties lie in the text -----

  /** The spans of the section properties of a subtree whose first tag is at position `at`. */
  function SpansIn(n: Node, at: nat): seq<Span>
    decreases n
  {
    if n.name == SectPr then [Span(at, at + |Tags(n)|)] else SpansInAll(n.kids, at + 1)
  }

  function SpansInAll(ns: seq<Node>, at: nat): seq<Span>
    decreases ns
  {
    if ns == [] then [] else SpansIn(ns[0], at) + SpansInAll(ns[1..], at + |Tags(ns[0])|)
  }

  lemma {:induction false} SpansConcat(ps: seq<Piece>, qs: seq<Piece>, at: nat)
    ensures SpansOf(ps + qs, at) == SpansOf(ps, at) + SpansOf(qs, at + |Flat(ps)|)
    decreases ps
  {
    if ps == [] {
      Unit(qs);
      Unit(SpansOf(qs, at));
    } else {
      var mid := at + |Text(ps[0])|;
      HeadOf(ps, qs);
      SpansConcat(ps[1..], qs, mid);
      Associative(SpanOf(ps[0], at), SpansOf(ps[1..], mid), SpansOf(qs, at + |Flat(ps)|));
    }
  }

  lemma GapsAround(open: Tag, ps: seq<Piece>, close: Tag, at: nat)
    ensures SpansOf([Gap([open])] + ps + [Gap([close])], at) == SpansOf(ps, at + 1)
  {
    Single(Gap([open]));
    Single(Gap([close]));
    SpansConcat([Gap([open])], ps, at);
    SpansConcat([Gap([open])] + ps, [Gap([close])], at);
    Unit(SpansOf(ps, at + 1));
  }

  lemma {:induction false} SpansOfNode(n: Node, sections: seq<Section>, at: nat)
    requires |sections| == |Sects(n)|
    ensures SpansOf(Pieces(n, sections), at) == SpansIn(n, at)
    decreases n
  {
    if n.name == SectPr {
      Single(Block(n, sections[0]));
      Unit(SpansIn(n, at));
    } else if n.selfClosed && n.kids == [] {
      Single(Gap([Void(n.name, n.attrs)]));
    } else {
      GapsAround(Open(n.name, n.attrs), PiecesAll(n.kids, sections), Close(n.name), at);
      SpansOfNodes(n.kids, sections, at + 1);
    }
  }

  lemma {:induction false} SpansOfNodes(ns: seq<Node>, sections: seq<Section>, at: nat)
    requires |sections| == |SectsAll(ns)|
    ensures SpansOf(PiecesAll(ns, sections), at) == SpansInAll(ns, at)
    decreases ns
  {
    if ns != [] {
      var c := |Sects(ns[0])|;
      PiecesOfNode(ns[0], sections[..c]);
      SpansOfNode(ns[0], sections[..c], at);
      SpansOfNodes(ns[1..], sections[c..], at + |Tags(ns[0])|);
      SpansConcat(Pieces(ns[0], sections[..c]), PiecesAll(ns[1..], sections[c..]), at);
    }
  }

  // ----- the first block of a text that starts with a section property -----

  lemma {:induction false} ThroughSomeClose(inner: seq<Tag>, rest: seq<Tag>)
    requires Close(SectPr) in inner
    ensures ThroughClose(inner + rest).Some? && ThroughClose(inner + rest).value <= |inner|
    decreases inner
  {
    HeadOf(inner, rest);
    if inner[0] != Close(SectPr) { ThroughSomeClose(inner[1..], rest); }
  }

  /** A block starts at every section property the scan comes to, self-closed or not. */
  lemma HeadStarts(sect: Node, rest: seq<Tag>, at: nat)
    requires sect.name == SectPr
    ensures var blocks := Blocks(Tags(sect) + rest, at);
            blocks != [] && blocks[0].start == at
  {
    if !(sect.selfClosed && sect.kids == []) {
      var inner := TagsAll(sect.kids) + [Close(SectPr)];
      assert Tags(sect) == [Open(SectPr, sect.attrs)] + inner;
      assert inner[|inner| - 1] == Close(SectPr);
      HeadOf([Open(SectPr, sect.attrs)] + inner, rest);
      Cons(Open(SectPr, sect.attrs), inner);
      ThroughSomeClose(inner, rest);
    }
  }

  /** A block ends at the first close tag, which may be that of a former property inside. */
  lemma HeadEndsEarly(sect: Node, rest: seq<Tag>, at: nat)
    requires sect.name == SectPr && Close(SectPr) in TagsAll(sect.kids)
    ensures var blocks := Blocks(Tags(sect) + rest, at);
            blocks != [] && blocks[0].end < at + |Tags(sect)|
  {
    var open, inner := Open(SectPr, sect.attrs), TagsAll(sect.kids);
    assert Tags(sect) + rest == [open] + (inner + ([Close(SectPr)] + rest));
    Cons(open, inner + ([Close(SectPr)] + rest));
    ThroughSomeClose(inner, [Close(SectPr)] + rest);
  }

  /** A self-closed property swallows the text up to the end of the next one that has a close tag. */
  lemma VoidSwallows(a: Attrs, gap: seq<Tag>, next: Node, rest: seq<Tag>, at: nat)
    requires NoneNamed(gap, SectPr) && ClosesOnce(next)
    ensures Blocks([Void(SectPr, a)] + (gap + Tags(next) + rest), at)
         == [Span(at, at + 1 + |gap| + |Tags(next)|)] + Blocks(rest, at + 1 + |gap| + |Tags(next)|)
  {
    var through := gap + Tags(next);
    ThroughNext(gap, next, rest);
    Cons(Void(SectPr, a), through + rest);
    assert BlockLength([Void(SectPr, a)] + (through + rest)) == Some(1 + |through|);
    assert ([Void(SectPr, a)] + (through + rest))[1 + |through|..] == rest;
  }

  /** A self-closed property with no close tag after it stands alone. */
  lemma VoidAlone(a: Attrs, rest: seq<Tag>, at: nat)
    requires Close(SectPr) !in rest
    ensures Blocks([Void(SectPr, a)] + rest, at) == [Span(at, at + 1)] + Blocks(rest, at + 1)
  {
    NoCloseAhead(rest);
    Cons(Void(SectPr, a), rest);
  }

  /** An open tag with no close tag after it is no block. */
  lemma OpenAlone(a: Attrs, rest: seq<Tag>, at: nat)
    requires Close(SectPr) !in rest
    ensures Blocks([Open(SectPr, a)] + rest, at) == Blocks(rest, at + 1)
  {
    NoCloseAhead(rest);
    Cons(Open(SectPr, a), rest);
  }

  lemma {:induction false} NoCloseAhead(tags: seq<Tag>)
    requires Close(SectPr) !in tags
    ensures ThroughClose(tags) == None
    decreases tags
  {
    if tags != [] { NoCloseAhead(tags[1..]); }
  }

  lemma ThroughNext(gap: seq<Tag>, next: Node, rest: seq<Tag>)
    requires NoneNamed(gap, SectPr) && ClosesOnce(next)
    ensures ThroughClose(gap + Tags(next) + rest) == Some(|gap + Tags(next)|)
  {
    var inner := gap + [Open(SectPr, next.attrs)] + TagsAll(next.kids);
    assert gap + Tags(next) == inner + [Close(SectPr)];
    ThroughFirstClose(inner, rest);
  }

  // ----- sections and blocks -----

  /** The spans of the properties that end a section. */
  function EnderSpans(props: seq<Property>, spans: seq<Span>): seq<Span>
    requires |props| == |spans|
  {
    if props == [] then []
    else (if EndsSection(props[0]) then [spans[0]] else []) + EnderSpans(props[1..], spans[1..])
  }

  /** Properties that end a section come before all others, and none of them holds another's close tag. */
  predicate EndersFirst(props: seq<Property>) {
    forall j :: 0 <= j < |props| && EndsSection(props[j]) ==>
      ClosesOnce(props[j].sect) && forall i :: 0 <= i < j ==> EndsSection(props[i])
  }

  lemma EndersFirstRest(props: seq<Property>)
    requires props != [] && EndsSection(props[0]) && ClosesOnce(props[0].sect)
    ensures EndersFirst(props) <==> EndersFirst(props[1..])
  {
    var rest := props[1..];
    assert forall i :: 0 <= i < |rest| ==> rest[i] == props[i + 1];
    if EndersFirst(rest) {
      forall j | 0 <= j < |props| && EndsSection(props[j])
        ensures ClosesOnce(props[j].sect) && forall i :: 0 <= i < j ==> EndsSection(props[i])
      {
        if j > 0 {
          assert EndsSection(rest[j - 1]);
          forall i | 0 <= i < j ensures EndsSection(props[i]) {
            if i > 0 { assert EndsSection(rest[i - 1]); }
          }
        }
      }
    }
    if EndersFirst(props) {
      forall j | 0 <= j < |rest| && EndsSection(rest[j])
        ensures ClosesOnce(rest[j].sect) && forall i :: 0 <= i < j ==> EndsSection(rest[i])
      {
        assert EndsSection(props[j + 1]);
      }
    }
  }

  lemma {:induction false} LaterEnders(props: seq<Property>, spans: seq<Span>)
    requires |props| == |spans|
    ensures EnderSpans(props, spans) == [] <==> forall j :: 0 <= j < |props| ==> !EndsSection(props[j])
    ensures forall s :: s in EnderSpans(props, spans) ==> s in spans
    decreases props
  {
    if props != [] {
      assert forall i :: 0 <= i < |props| - 1 ==> props[1..][i] == props[i + 1];
      LaterEnders(props[1..], spans[1..]);
    }
  }

  lemma {:induction false} SpansStartLater(ps: seq<Piece>, at: nat)
    ensures forall s :: s in SpansOf(ps, at) ==> s.start >= at
    ensures |SpansOf(ps, at)| == |BlockSects(ps)|
    decreases ps
  {
    if ps != [] { SpansStartLater(ps[1..], at + |Text(ps[0])|); }
  }

  lemma PrefixCons<T>(x: T, a: seq<T>, b: seq<T>)
    ensures [x] + a <= [x] + b <==> a <= b
  {
    Cons(x, a);
    Cons(x, b);
    if a <= b { assert b == a + b[|a|..]; }
    if [x] + a <= [x] + b {
      assert ([x] + b)[..|a| + 1] == [x] + a;
      assert b[..|a|] == ([x] + b)[..|a| + 1][1..];
    }
  }

  /** The blocks start with the spans of the properties that end a section. */
  predicate StartWithEnders(props: seq<Property>, spans: seq<Span>, blocks: seq<Span>)
    requires |props| == |spans|
  {
    EnderSpans(props, spans) <= blocks
  }

  lemma EnderSpansFirst(props: seq<Property>, span: Span, spans: seq<Span>)
    requires props != [] && |spans| == |props| - 1
    ensures EnderSpans(props, [span] + spans)
         == (if EndsSection(props[0]) then [span] else []) + EnderSpans(props[1..], spans)
  {
    Cons(span, spans);
  }

  /** A property that ends a section and has a block of its own. */
  lemma OwnBlock(props: seq<Property>, span: Span, spans: seq<Span>, all: seq<Span>, found: seq<Span>,
      blocks: seq<Span>)
    requires props != [] && |spans| == |props| - 1 && EndsSection(props[0])
    requires all == [span] + spans && blocks == [span] + found
    ensures StartWithEnders(props, all, blocks) <==> StartWithEnders(props[1..], spans, found)
  {
    EnderSpansFirst(props, span, spans);
    PrefixCons(span, EnderSpans(props[1..], spans), found);
  }

  /** A property that ends a section but holds another's close tag: its block is too short. */
  lemma ShortBlock(props: seq<Property>, span: Span, spans: seq<Span>, all: seq<Span>, blocks: seq<Span>)
    requires props != [] && |spans| == |props| - 1 && all == [span] + spans
    requires EndsSection(props[0]) && !ClosesOnce(props[0].sect)
    requires blocks != [] && blocks[0].end < span.end
    ensures !StartWithEnders(props, all, blocks) && !EndersFirst(props)
  {
    EnderSpansFirst(props, span, spans);
    assert EnderSpans(props, [span] + spans)[0] == span;
  }

  /** A property that ends no section has a block all the same, in the place of a later one. */
  lemma IdleBlock(props: seq<Property>, span: Span, spans: seq<Span>, all: seq<Span>, blocks: seq<Span>)
    requires props != [] && |spans| == |props| - 1 && all == [span] + spans && !EndsSection(props[0])
    requires blocks != [] && forall s :: s in spans ==> blocks[0].start < s.start
    ensures StartWithEnders(props, all, blocks) <==> EndersFirst(props)
  {
    var mine := EnderSpans(props, all);
    EnderSpansFirst(props, span, spans);
    Unit(EnderSpans(props[1..], spans));
    LaterEnders(props, all);
    LaterEnders(props[1..], spans);
    if mine != [] {
      assert mine[0] in spans;
      assert blocks[0] != mine[0];
    }
  }

  /** These properties are those of the pieces' blocks. */
  predicate OfBlocks(ps: seq<Piece>, props: seq<Property>) {
    Separated(ps) && NodesOf(props) == BlockSects(ps)
  }

  lemma {:induction false} NodesCount(props: seq<Property>)
    ensures |NodesOf(props)| == |props|
  {
    if props != [] { NodesCount(props[1..]); }
  }

  lemma RestOfBlocks(ps: seq<Piece>, props: seq<Property>)
    requires ps != [] && OfBlocks(ps, props)
    ensures Proper(ps[0])
    ensures ps[0].Gap? ==> OfBlocks(ps[1..], props)
    ensures ps[0].Block? ==> props != [] && props[0].sect == ps[0].sect && OfBlocks(ps[1..], props[1..])
  {
    RestOfSects(ps);
    NodesCount(props);
    if ps[0].Block? { Cons(props[0].sect, NodesOf(props[1..])); }
  }

  lemma SizedHasKids(p: Property)
    requires EndsSection(p)
    ensures p.sect.kids != []
  {
  }

  /** What the first block is for a section property at `span`, with `found` the blocks after it. */
  predicate HeadBlock(sect: Node, span: Span, found: seq<Span>, blocks: seq<Span>) {
    blocks != [] && blocks[0].start == span.start &&
    (sect.kids != [] && !ClosesOnce(sect) ==> blocks[0].end < span.end) &&
    (ClosesOnce(sect) ==> blocks == [span] + found)
  }

  /** In `text`, which starts at `at` with a section property, the first block is as said; `rest` comes after. */
  predicate HeadFound(sect: Node, rest: seq<Tag>, text: seq<Tag>, at: nat) {
    var mid := at + |Tags(sect)|;
    HeadBlock(sect, Span(at, mid), Blocks(rest, mid), Blocks(text, at))
  }

  lemma FindHead(sect: Node, rest: seq<Tag>, text: seq<Tag>, at: nat)
    requires sect.name == SectPr && text == Tags(sect) + rest
    ensures HeadFound(sect, rest, text, at)
  {
    if ClosesOnce(sect) {
      BlockAtHead(sect, rest, at);
    } else {
      HeadStarts(sect, rest, at);
      if sect.kids != [] { HeadEndsEarly(sect, rest, at); }
    }
  }

  predicate AllLater(spans: seq<Span>, at: nat) {
    forall s :: s in spans ==> at < s.start
  }

  /** The case of a piece that is a block, on the spans and blocks alone. */
  lemma HeadAligns(props: seq<Property>, span: Span, spans: seq<Span>, all: seq<Span>, found: seq<Span>,
      blocks: seq<Span>)
    requires props != [] && |spans| == |props| - 1 && all == [span] + spans && AllLater(spans, span.start)
    requires HeadBlock(props[0].sect, span, found, blocks)
    requires StartWithEnders(props[1..], spans, found) <==> EndersFirst(props[1..])
    ensures StartWithEnders(props, all, blocks) <==> EndersFirst(props)
  {
    if !EndsSection(props[0]) {
      IdleBlock(props, span, spans, all, blocks);
    } else if !ClosesOnce(props[0].sect) {
      SizedHasKids(props[0]);
      ShortBlock(props, span, spans, all, blocks);
    } else {
      OwnBlock(props, span, spans, all, found, blocks);
      EndersFirstRest(props);
    }
  }

  lemma SpansAtHead(ps: seq<Piece>, at: nat)
    requires ps != [] && ps[0].Block?
    ensures var mid := at + |Text(ps[0])|;
            SpansOf(ps, at) == [Span(at, mid)] + SpansOf(ps[1..], mid) && AllLater(SpansOf(ps[1..], mid), at)
  {
    SpanAtHead(ps, at);
    SpansStartLater(ps[1..], at + |Text(ps[0])|);
  }

  lemma BlockAtStart(ps: seq<Piece>, props: seq<Property>, at: nat)
    requires ps != [] && ps[0].Block? && OfBlocks(ps, props)
    ensures props != [] && props[0].sect == ps[0].sect && OfBlocks(ps[1..], props[1..])
    ensures HeadFound(ps[0].sect, Flat(ps[1..]), Flat(ps), at)
  {
    RestOfBlocks(ps, props);
    FindHead(ps[0].sect, Flat(ps[1..]), Flat(ps), at);
  }

  lemma {:induction false} BlocksAlignExactly(ps: seq<Piece>, props: seq<Property>, at: nat)
    requires OfBlocks(ps, props) && |props| == |SpansOf(ps, at)|
    ensures StartWithEnders(props, SpansOf(ps, at), Blocks(Flat(ps), at)) <==> EndersFirst(props)
    decreases ps
  {
    if ps == [] {
      assert props == [];
    } else if ps[0].Block? {
      var mid := at + |Text(ps[0])|;
      BlockAtStart(ps, props, at);
      SpansAtHead(ps, at);
      BlocksAlignExactly(ps[1..], props[1..], mid);
      HeadAligns(props, Span(at, mid), SpansOf(ps[1..], mid), SpansOf(ps, at), Blocks(Flat(ps[1..]), mid),
        Blocks(Flat(ps), at));
    } else {
      RestOfBlocks(ps, props);
      GapAtHead(ps, at);
      BlocksAlignExactly(ps[1..], props, at + |Text(ps[0])|);
    }
  }

  /** Some section for every property: which one does not matter to where the blocks lie. */
  function AnySections(n: nat): (r: seq<Section>)
    ensures |r| == n
  {
    seq(n, i => Section(0, 0, 0, Portrait, 0, 0, 0))
  }

  /** The span in the text of the property that ends the `k`-th section. */
  function SectionSpans(d: Node): seq<Span>
    requires |PropertiesAll(d.kids, d.name)| == |SpansIn(d, 0)|
  {
    EnderSpans(PropertiesAll(d.kids, d.name), SpansIn(d, 0))
  }

  lemma {:induction false} EnderSpansCount(props: seq<Property>, spans: seq<Span>)
    requires |props| == |spans|
    ensures |EnderSpans(props, spans)| == |Enders(props)|
    decreases props
  {
    if props != [] { EnderSpansCount(props[1..], spans[1..]); }
  }

  lemma PrefixByIndex<T>(a: seq<T>, b: seq<T>)
    ensures a <= b <==> |a| <= |b| && forall k :: 0 <= k < |a| ==> b[k] == a[k]
  {
    if |a| <= |b| && forall k :: 0 <= k < |a| ==> b[k] == a[k] {
      assert a == b[..|a|];
    }
  }

  /** For every parsed section, the block at its index is the section property that ends it. */
  predicate BlocksFollowSections(d: Node)
    requires |PropertiesAll(d.kids, d.name)| == |SpansIn(d, 0)| && |SectionSpans(d)| == |Parsed(Tags(d))|
  {
    |Parsed(Tags(d))| <= |Blocks(Tags(d), 0)| &&
    forall k :: 0 <= k < |Parsed(Tags(d))| ==> Blocks(Tags(d), 0)[k] == SectionSpans(d)[k]
  }

  lemma SectionSpansCount(d: Node)
    requires Document(d)
    ensures |PropertiesAll(d.kids, d.name)| == |SpansIn(d, 0)| && |SectionSpans(d)| == |Parsed(Tags(d))|
  {
    NodesOfAllProperties(d.kids, d.name);
    NodesCount(PropertiesAll(d.kids, d.name));
    SpansCounted(d, 0);
    SectionsFollowProperties(d);
    EnderSpansCount(PropertiesAll(d.kids, d.name), SpansIn(d, 0));
  }

  /**
   * Sections and blocks align exactly when the properties that end a section come before all others,
   * and none of them records a revision with a close tag of its own.
   */
  lemma AlignmentExact(d: Node)
    requires Document(d)
    ensures |PropertiesAll(d.kids, d.name)| == |SpansIn(d, 0)| && |SectionSpans(d)| == |Parsed(Tags(d))|
    ensures BlocksFollowSections(d) <==> EndersFirst(PropertiesAll(d.kids, d.name))
  {
    var props, sections := PropertiesAll(d.kids, d.name), AnySections(|Sects(d)|);
    SectionSpansCount(d);
    PiecesOfNode(d, sections);
    NodesOfAllProperties(d.kids, d.name);
    SpansOfNode(d, sections, 0);
    BlocksAlignExactly(Pieces(d, sections), props, 0);
    PrefixByIndex(SectionSpans(d), Blocks(Tags(d), 0));
  }

  predicate EndersEditable(props: seq<Property>) {
    forall k :: 0 <= k < |props| && EndsSection(props[k]) ==> Editable(props[k].sect)
  }

  lemma {:induction false} LeadingExactly(props: seq<Property>)
    ensures Leading(props, |Enders(props)|) <==> EndersFirst(props) && EndersEditable(props)
    decreases props
  {
    var m := |Enders(props)|;
    if Leading(props, m) {
      forall k | 0 <= k < m ensures EndsSection(props[k]) && ClosesOnce(props[k].sect) {
        EditableEnds(props[k]);
        EditableClosesOnce(props[k].sect);
      }
    }
    if EndersFirst(props) && EndersEditable(props) { EndersLead(props); }
  }

  lemma {:induction false} EndersLead(props: seq<Property>)
    requires EndersFirst(props) && EndersEditable(props)
    ensures Leading(props, |Enders(props)|)
    decreases props
  {
    if props != [] {
      var rest := props[1..];
      assert forall i :: 0 <= i < |rest| ==> rest[i] == props[i + 1];
      if EndsSection(props[0]) {
        EndersFirstRest(props);
        EndersLead(rest);
        LeadingCons(props, |Enders(rest)|);
      } else {
        NoneEnds(props);
      }
    }
  }

  lemma LeadingCons(props: seq<Property>, m: nat)
    requires props != [] && Editable(props[0].sect) && Leading(props[1..], m)
    ensures Leading(props, m + 1)
  {
    assert forall i :: 0 <= i < |props| - 1 ==> props[1..][i] == props[i + 1];
    forall k | 0 <= k < m + 1 ensures Editable(props[k].sect) {
      if k > 0 { assert Editable(props[1..][k - 1].sect); }
    }
    forall k | m + 1 <= k < |props| ensures !EndsSection(props[k]) {
      assert !EndsSection(props[1..][k - 1]);
    }
  }

  lemma {:induction false} NoneEnds(props: seq<Property>)
    requires forall k :: 0 <= k < |props| ==> !EndsSection(props[k])
    ensures Enders(props) == []
    decreases props
  {
    if props != [] {
      assert forall i :: 0 <= i < |props| - 1 ==> props[1..][i] == props[i + 1];
      NoneEnds(props[1..]);
    }
  }

  /**
   * The documents that normalization is proved for are those in which sections and blocks align and every
   * property that ends a section can be edited.
   */
  lemma EditableExactly(d: Node)
    requires Document(d)
    ensures |PropertiesAll(d.kids, d.name)| == |SpansIn(d, 0)| && |SectionSpans(d)| == |Parsed(Tags(d))|
    ensures EditableDocument(d) <==> BlocksFollowSections(d) && EndersEditable(PropertiesAll(d.kids, d.name))
  {
    AlignmentExact(d);
    LeadingExactly(PropertiesAll(d.kids, d.name));
  }

  // ----- as many blocks as sections, and yet the wrong block -----

  /** A paragraph with an empty section property, then the body's own with a page size. */
  function SwallowingBody(a: Attrs): Node {
    var empty, sized := Elem(SectPr, a, true, []), Elem(SectPr, a, false, [Elem(PgSz, a, true, [])]);
    Elem(Body, a, false, [Elem(P, a, false, [empty]), sized])
  }

  function SwallowingDocument(a: Attrs): Node {
    Elem(Other("w:document"), a, false, [SwallowingBody(a)])
  }

  lemma SwallowingTags(a: Attrs)
    ensures var d := SwallowingDocument(a); var sized := d.kids[0].kids[1];
            ClosesOnce(sized) &&
            Tags(d) == [Open(d.name, a), Open(Body, a), Open(P, a)] +
              ([Void(SectPr, a)] + ([Close(P)] + Tags(sized) + [Close(Body), Close(d.name)]))
  {
    var d := SwallowingDocument(a);
    var body := d.kids[0];
    var para, sized := body.kids[0], body.kids[1];
    assert TagsAll(para.kids[0].kids) == [];
    assert TagsAll(para.kids) == [Void(SectPr, a)];
    assert Tags(para) == [Open(P, a), Void(SectPr, a), Close(P)];
    assert TagsAll(sized.kids) == [Void(PgSz, a)];
    assert TagsAll(body.kids[1..]) == Tags(sized);
    assert TagsAll(d.kids) == Tags(body);
  }

  lemma SwallowingShape(a: Attrs)
    ensures Document(SwallowingDocument(a))
  {
    var d := SwallowingDocument(a);
    var body := d.kids[0];
    var para, sized := body.kids[0], body.kids[1];
    Single(para.kids[0]);
    assert PagePropsAll([]) && Shaped(para.kids[0], P, true);
    assert ShapedAll([], P, true) && ShapedAll([], Body, false) && ShapedAll([], d.name, false);
    assert SectCountAll(para.kids) == 1;
    Single(sized.kids[0]);
    assert PageProps(sized.kids[0]);
    Cons(para, [sized]);
    Single(sized);
    assert ShapedAll([sized], Body, false);
    Single(body);
    assert ShapedAll(body.kids, Body, false);
  }

  lemma SwallowingProperties(a: Attrs)
    ensures var d := SwallowingDocument(a); var body := d.kids[0];
            PropertiesAll(d.kids, d.name) == [Property(body.kids[0].kids[0], false), Property(body.kids[1], true)]
  {
    var d := SwallowingDocument(a);
    var body := d.kids[0];
    var para, sized := body.kids[0], body.kids[1];
    assert PropertiesAll(para.kids, P) == [Property(para.kids[0], false)];
    assert body.kids[1..] == [sized];
    assert PropertiesAll([sized], Body) == [Property(sized, true)];
    assert PropertiesAll(body.kids, Body) == [Property(para.kids[0], false), Property(sized, true)];
    assert PropertiesAll(d.kids, d.name) == PropertiesAll(body.kids, Body);
  }

  lemma SwallowingBlocks(a: Attrs)
    ensures |Blocks(Tags(SwallowingDocument(a)), 0)| == 1
  {
    var d := SwallowingDocument(a);
    var sized := d.kids[0].kids[1];
    SwallowingTags(a);
    var lead, rest := [Open(d.name, a), Open(Body, a), Open(P, a)], [Close(Body), Close(d.name)];
    BlocksSkipGap(lead, [Void(SectPr, a)] + ([Close(P)] + Tags(sized) + rest), 0);
    VoidSwallows(a, [Close(P)], sized, rest, 3);
    BlocksSkipGap(rest, [], 4 + 1 + |Tags(sized)|);
    Unit(rest);
  }

  /** Only the second property ends a section. */
  lemma SwallowingEnders(a: Attrs)
    ensures var props := PropertiesAll(SwallowingDocument(a).kids, SwallowingDocument(a).name);
            |Enders(props)| == 1 && !EndersFirst(props)
  {
    var empty, sized := Elem(SectPr, a, true, []), Elem(SectPr, a, false, [Elem(PgSz, a, true, [])]);
    SwallowingProperties(a);
    assert !EndsSection(Property(empty, false));
    Single(sized.kids[0]);
    assert Geom(Geometry(None, 0, 0), sized.kids[0]).size.Some?;
    assert GeomOf(sized) == Geom(Geometry(None, 0, 0), sized.kids[0]);
    assert SectCountAll([]) == 0;
    assert SectCountAll(sized.kids) == SectCount(sized.kids[0]);
    var props := [Property(empty, false), Property(sized, true)];
    assert EndsSection(props[1]) && !EndsSection(props[0]);
    assert props[1..] == [Property(sized, true)];
    Single(Property(sized, true));
    assert Enders([]) == [];
    assert Enders(props[1..]) == props[1..];
  }

  /** Equal counts are not enough: one section and one block, which starts at the property before. */
  lemma CountsMayAgree(a: Attrs)
    ensures var d := SwallowingDocument(a);
            Document(d) && |Blocks(Tags(d), 0)| == 1 && |Parsed(Tags(d))| == 1 &&
            |PropertiesAll(d.kids, d.name)| == |SpansIn(d, 0)| && |SectionSpans(d)| == |Parsed(Tags(d))| &&
            !BlocksFollowSections(d)
  {
    SwallowingShape(a);
    SwallowingBlocks(a);
    SwallowingEnders(a);
    SectionsFollowProperties(SwallowingDocument(a));
    AlignmentExact(SwallowingDocument(a));
  }

  /** The span of a section is where the text of its property stands. */
  lemma {:induction false} SpanHoldsProperty(before: seq<Tag>, n: Node, after: seq<Tag>, i: nat)
    requires i < |SpansIn(n, |before|)|
    ensures |SpansIn(n, |before|)| == |Sects(n)|
    ensures var s := SpansIn(n, |before|)[i];
            s.start <= s.end <= |before + Tags(n) + after| &&
            (before + Tags(n) + after)[s.start..s.end] == Tags(Sects(n)[i])
    decreases n
  {
    var all := before + Tags(n) + after;
    if n.name == SectPr {
      assert all[|before|..|before| + |Tags(n)|] == Tags(n);
    } else if n.selfClosed && n.kids == [] {
    } else {
      var open, close := [Open(n.name, n.attrs)], [Close(n.name)];
      assert all == (before + open) + TagsAll(n.kids) + (close + after);
      SpanHoldsPropertyAll(before + open, n.kids, close + after, i);
    }
  }

  lemma {:induction false} SpanHoldsPropertyAll(before: seq<Tag>, ns: seq<Node>, after: seq<Tag>, i: nat)
    requires i < |SpansInAll(ns, |before|)|
    ensures |SpansInAll(ns, |before|)| == |SectsAll(ns)|
    ensures var s := SpansInAll(ns, |before|)[i];
            s.start <= s.end <= |before + TagsAll(ns) + after| &&
            (before + TagsAll(ns) + after)[s.start..s.end] == Tags(SectsAll(ns)[i])
    decreases ns
  {
    var n, rest := ns[0], ns[1..];
    assert before + TagsAll(ns) + after == before + Tags(n) + (TagsAll(rest) + after);
    assert before + TagsAll(ns) + after == (before + Tags(n)) + TagsAll(rest) + after;
    SpansCounted(n, |before|);
    if i < |SpansIn(n, |before|)| {
      SpanHoldsProperty(before, n, TagsAll(rest) + after, i);
      SpansCountedAll(rest, |before| + |Tags(n)|);
    } else {
      SpanHoldsPropertyAll(before + Tags(n), rest, after, i - |SpansIn(n, |before|)|);
    }
  }

  lemma {:induction false} SpansCounted(n: Node, at: nat)
    ensures |SpansIn(n, at)| == |Sects(n)|
    decreases n
  {
    if n.name != SectPr { SpansCountedAll(n.kids, at + 1); }
  }

  lemma {:induction false} SpansCountedAll(ns: seq<Node>, at: nat)
    ensures |SpansInAll(ns, at)| == |SectsAll(ns)|
    decreases ns
  {
    if ns != [] {
      SpansCounted(ns[0], at);
      SpansCountedAll(ns[1..], at + |Tags(ns[0])|);
    }
  }

  // ----- revisions -----

  lemma {:induction false} GeomConcat(g: Geometry, xs: seq<Node>, ys: seq<Node>)
    ensures GeomAll(g, xs + ys) == GeomAll(GeomAll(g, xs), ys)
    decreases xs
  {
    if xs == [] {
      Unit(ys);
    } else {
      HeadOf(xs, ys);
      GeomConcat(Geom(g, xs[0]), xs[1..], ys);
    }
  }

  lemma {:induction false} CountConcat(xs: seq<Node>, ys: seq<Node>)
    ensures SectCountAll(xs + ys) == SectCountAll(xs) + SectCountAll(ys)
    decreases xs
  {
    if xs == [] {
      Unit(ys);
    } else {
      HeadOf(xs, ys);
      CountConcat(xs[1..], ys);
    }
  }

  /** A section property with the element that records what it was before a revision. */
  function WithRevision(sect: Node, change: Node): Node {
    sect.(kids := sect.kids + [change])
  }

  function ChangeOf(former: Node, change: string, a: Attrs): Node {
    Elem(Other(change), a, false, [former])
  }

  lemma ChangeIsFormer(g: Geometry, former: Node, change: string, a: Attrs)
    requires former.name == SectPr
    ensures Geom(g, ChangeOf(former, change, a)) == GeomOf(former) && SectCount(ChangeOf(former, change, a)) == 1
  {
    Single(former);
    assert GeomAll(g, [former]) == Geom(g, former);
    assert SectCountAll([former]) == SectCount(former);
  }

  /** The parser reads the former page, whatever the property itself declares. */
  lemma RevisedReadsFormer(sect: Node, former: Node, change: string, a: Attrs)
    requires former.name == SectPr
    ensures GeomOf(WithRevision(sect, ChangeOf(former, change, a))) == GeomOf(former)
    ensures Revised(WithRevision(sect, ChangeOf(former, change, a)))
  {
    var none, element := Geometry(None, 0, 0), ChangeOf(former, change, a);
    GeomConcat(none, sect.kids, [element]);
    CountConcat(sect.kids, [element]);
    ChangeIsFormer(GeomAll(none, sect.kids), former, change, a);
    Single(element);
    assert GeomAll(GeomAll(none, sect.kids), [element]) == Geom(GeomAll(none, sect.kids), element);
    assert SectCountAll([element]) == SectCount(element);
  }

  /**
   * A revision is harmless exactly when, at body level, the property declared no page to begin with,
   * and in a paragraph, when the former page is the declared one. Otherwise the body's section is
   * dropped, and a paragraph's section takes the former page.
   */
  lemma RevisionExact(sect: Node, former: Node, change: string, a: Attrs, atBody: bool)
    requires former.name == SectPr && !Revised(sect)
    ensures var revised := WithRevision(sect, ChangeOf(former, change, a));
            BreakAt(Property(revised, atBody)) == (if atBody then [] else BreakOf(GeomOf(former))) &&
            (BreakAt(Property(revised, atBody)) == BreakAt(Property(sect, atBody)) <==>
               if atBody then GeomOf(sect).size.None? else BreakOf(GeomOf(former)) == BreakOf(GeomOf(sect)))
  {
    RevisedReadsFormer(sect, former, change, a);
  }

  lemma {:induction false} EndersConcat(ps: seq<Property>, qs: seq<Property>)
    ensures Enders(ps + qs) == Enders(ps) + Enders(qs)
    decreases ps
  {
    if ps == [] {
      Unit(qs);
    } else {
      HeadOf(ps, qs);
      EndersConcat(ps[1..], qs);
      if EndsSection(ps[0]) { Associative([ps[0]], Enders(ps[1..]), Enders(qs)); }
    }
  }

  /** A document whose body-level property records a revision has the sections of its other properties only. */
  lemma RevisedBodyIsDropped(d: Node, before: seq<Property>, sect: Node, after: seq<Property>)
    requires Document(d) && PropertiesAll(d.kids, d.name) == before + [Property(sect, true)] + after && Revised(sect)
    ensures var sections, others := Parsed(Tags(d)), Enders(before) + Enders(after);
            |sections| == |others| && forall k :: 0 <= k < |sections| ==> HasPageOf(sections[k], others[k], k)
  {
    SectionsFollowProperties(d);
    Single(Property(sect, true));
    EndersConcat(before + [Property(sect, true)], after);
    EndersConcat(before, [Property(sect, true)]);
    Unit(Enders(before));
  }

  /** In a paragraph the section survives, with the former page. */
  lemma RevisedParagraphReadsFormer(d: Node, before: seq<Property>, sect: Node, former: Node, change: string, a: Attrs,
      after: seq<Property>)
    requires former.name == SectPr && GeomOf(former).size.Some? && Document(d)
    requires PropertiesAll(d.kids, d.name)
          == before + [Property(WithRevision(sect, ChangeOf(former, change, a)), false)] + after
    ensures |Enders(before)| < |Parsed(Tags(d))|
    ensures HasPageOf(Parsed(Tags(d))[|Enders(before)|], Property(former, false), |Enders(before)|)
  {
    var p := Property(WithRevision(sect, ChangeOf(former, change, a)), false);
    SectionsFollowProperties(d);
    RevisedReadsFormer(sect, former, change, a);
    Single(p);
    EndersConcat(before + [p], after);
    EndersConcat(before, [p]);
    assert Enders(before + [p] + after)[|Enders(before)|] == p;
  }

  lemma {:induction false} GridConcat(xs: seq<Node>, ys: seq<Node>)
    ensures HoldsGridAll(xs + ys) <==> HoldsGridAll(xs) || HoldsGridAll(ys)
    ensures WidthsAll(xs + ys) == Max(WidthsAll(xs), WidthsAll(ys))
    ensures GridColsAll(xs + ys) <==> GridColsAll(xs) && GridColsAll(ys)
    decreases xs
  {
    if xs == [] {
      Unit(ys);
    } else {
      HeadOf(xs, ys);
      GridConcat(xs[1..], ys);
    }
  }

  predicate PlainGrid(grid: Node) {
    grid.name == TblGrid && GridColsAll(grid.kids) && !HoldsGridAll(grid.kids)
  }

  /** What a plain grid counts for. */
  lemma PlainGridWidth(t: TableState, grid: Node)
    requires PlainGrid(grid) && AtRest(t) && t.depth == 1
    ensures Widths(grid) == Max(0, GridSumAll(grid.kids))
    ensures TableVisit(t, grid) == t.(tblW := Max(t.tblW, GridSumAll(grid.kids)))
  {
    GridVisit(t, grid);
    GridVisitAll(t, grid.kids);
  }

  /** A revised grid counts with its former columns. */
  lemma RevisedGridWidth(t: TableState, grid: Node, former: Node, change: string, a: Attrs)
    requires PlainGrid(grid) && PlainGrid(former) && AtRest(t) && t.depth == 1
    ensures TableVisit(t, WithRevision(grid, ChangeOf(former, change, a)))
         == t.(tblW := Max(t.tblW, GridSumAll(former.kids)))
  {
    var element := ChangeOf(former, change, a);
    PlainGridWidth(t, former);
    GridOfOne(former);
    GridOfOne(element);
    GridConcat(grid.kids, [element]);
    GridVisitAll(t, grid.kids);
    GridVisit(t, WithRevision(grid, element));
  }

  lemma GridOfOne(n: Node)
    ensures HoldsGridAll([n]) == HoldsGrid(n) && WidthsAll([n]) == Widths(n) && GridColsAll([n]) == GridCols(n)
  {
    Single(n);
  }

  /** So its revision is harmless exactly when both column sums are equal or below what the table declared before. */
  lemma RevisedGridExact(t: TableState, grid: Node, former: Node, change: string, a: Attrs)
    requires PlainGrid(grid) && PlainGrid(former) && AtRest(t) && t.depth == 1
    ensures TableVisit(t, WithRevision(grid, ChangeOf(former, change, a))) == TableVisit(t, grid) <==>
              GridSumAll(former.kids) == GridSumAll(grid.kids) ||
              (GridSumAll(former.kids) <= t.tblW && GridSumAll(grid.kids) <= t.tblW)
  {
    PlainGridWidth(t, grid);
    RevisedGridWidth(t, grid, former, change, a);
  }
}
