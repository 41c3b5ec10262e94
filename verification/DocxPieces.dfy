/** Where the `sectPr` blocks of a document tree lie in its tag stream, and what editing them makes of the tree. */
module DocxPieces {
  import opened Options
  import opened DocxModel
  import opened DocxParser
  import opened DocxRewrite
  import opened Sequences

  // ----- documents whose blocks can be edited -----

  /** Neither page geometry nor section properties in this subtree. */
  predicate Inert(n: Node)
    decreases n
  {
    n.name.Other? && InertAll(n.kids)
  }

  predicate InertAll(ns: seq<Node>)
    decreases ns
  {
    ns == [] || (Inert(ns[0]) && InertAll(ns[1..]))
  }

  /** The attributes a change replaces are written as it expects them. */
  predicate Writable(n: Node) {
    (n.name.PgSz? ==> n.attrs.written.w && n.attrs.written.h && n.attrs.written.orient) &&
    (n.name.PgMar? ==> n.attrs.written.left && n.attrs.written.right)
  }

  /** A `sectPr` child: self-closing page geometry, or something the normalizer ignores. */
  predicate PlainProp(n: Node) {
    if n.name.PgSz? || n.name.PgMar? then n.selfClosed && n.kids == [] && Writable(n) else Inert(n)
  }

  predicate PlainProps(ns: seq<Node>) {
    ns == [] || (PlainProp(ns[0]) && PlainProps(ns[1..]))
  }

  function CountNamed(ns: seq<Node>, name: Name): nat {
    if ns == [] then 0 else (if ns[0].name == name then 1 else 0) + CountNamed(ns[1..], name)
  }

  /** One page size and at most one margin element, all self-closing children with numbers in digits. */
  predicate Editable(sect: Node) {
    sect.name == SectPr && PlainProps(sect.kids) &&
    CountNamed(sect.kids, PgSz) == 1 && CountNamed(sect.kids, PgMar) <= 1
  }

  predicate HasMargins(sect: Node) {
    CountNamed(sect.kids, PgMar) > 0
  }

  /** The `sectPr` elements of a subtree, in document order. */
  function Sects(n: Node): seq<Node>
    decreases n
  {
    if n.name == SectPr then [n] else SectsAll(n.kids)
  }

  function SectsAll(ns: seq<Node>): seq<Node>
    decreases ns
  {
    if ns == [] then [] else Sects(ns[0]) + SectsAll(ns[1..])
  }

  // ----- editing the tree -----

  /** The children of a `sectPr` with the geometry element a change is for changed. */
  function ChangedKids(ns: seq<Node>, c: Change): seq<Node> {
    if ns == [] then []
    else [if ns[0].name == Target(c) then ns[0].(attrs := Changed(c, ns[0].attrs)) else ns[0]] + ChangedKids(ns[1..], c)
  }

  function EditedSect(sect: Node, s: Section): Node {
    var turned := ChangedKids(sect.kids, TurnOf(s));
    sect.(kids := if NeedsTrim(s) then ChangedKids(turned, TrimOf(s)) else turned)
  }

  /** The `sectPr` of section `s` after normalization. */
  function NewSect(sect: Node, s: Section): Node {
    if Overflows(s) then EditedSect(sect, s) else sect
  }

  /** A tree whose `sectPr` elements, in order, end the given sections, after normalization. */
  function Rewritten(n: Node, sections: seq<Section>): Node
    requires |sections| == |Sects(n)|
    decreases n
  {
    if n.name == SectPr then NewSect(n, sections[0])
    else n.(kids := RewrittenAll(n.kids, sections))
  }

  function RewrittenAll(ns: seq<Node>, sections: seq<Section>): (r: seq<Node>)
    requires |sections| == |SectsAll(ns)|
    ensures |r| == |ns|
    decreases ns
  {
    if ns == [] then []
    else
      var c := |Sects(ns[0])|;
      [Rewritten(ns[0], sections[..c])] + RewrittenAll(ns[1..], sections[c..])
  }

  predicate NoneNamed(tags: seq<Tag>, name: Name) {
    forall i :: 0 <= i < |tags| ==> tags[i].name != name
  }

  lemma {:induction false} SkipPrefix(xs: seq<Tag>, ys: seq<Tag>, c: Change)
    requires NoneNamed(xs, Target(c))
    ensures ChangeFirst(xs + ys, c) == xs + ChangeFirst(ys, c)
    decreases xs
  {
    if xs == [] {
      assert xs + ys == ys;
    } else {
      SkipPrefix(xs[1..], ys, c);
      HeadOf(xs, ys);
      Associative([xs[0]], xs[1..], ChangeFirst(ys, c));
    }
  }

  lemma {:induction false} InertTags(ns: seq<Node>, name: Name)
    requires InertAll(ns) && !name.Other?
    ensures NoneNamed(TagsAll(ns), name)
    decreases ns
  {
    if ns != [] {
      InertTags(ns[0].kids, name);
      InertTags(ns[1..], name);
    }
  }

  lemma {:induction false} UntargetedKids(ns: seq<Node>, c: Change)
    requires PlainProps(ns) && CountNamed(ns, Target(c)) == 0
    ensures ChangedKids(ns, c) == ns && NoneNamed(TagsAll(ns), Target(c))
    decreases ns
  {
    if ns != [] {
      if !ns[0].name.PgSz? && !ns[0].name.PgMar? { InertTags(ns[0].kids, Target(c)); }
      UntargetedKids(ns[1..], c);
    }
  }

  /** The first child is the one to change. */
  lemma ChangeReachesFirst(ns: seq<Node>, rest: seq<Tag>, c: Change)
    requires ns != [] && PlainProps(ns) && ns[0].name == Target(c) && CountNamed(ns[1..], Target(c)) == 0
    ensures ChangeFirst(TagsAll(ns) + rest, c) == TagsAll(ChangedKids(ns, c)) + rest
  {
    var others := TagsAll(ns[1..]);
    var tag := Void(ns[0].name, ns[0].attrs);
    UntargetedKids(ns[1..], c);
    Associative([tag], others, rest);
    HeadOf([tag], others + rest);
    Associative([tag.(attrs := Changed(c, tag.attrs))], others, rest);
  }

  lemma OtherKid(n: Node, c: Change)
    requires PlainProp(n) && n.name != Target(c)
    ensures NoneNamed(Tags(n), Target(c))
  {
    if !n.name.PgSz? && !n.name.PgMar? { InertTags(n.kids, Target(c)); }
  }

  /** Changing the first matching tag of a block changes the one matching child. */
  lemma {:induction false} ChangeReachesKid(ns: seq<Node>, rest: seq<Tag>, c: Change)
    requires PlainProps(ns) && CountNamed(ns, Target(c)) == 1
    ensures ChangeFirst(TagsAll(ns) + rest, c) == TagsAll(ChangedKids(ns, c)) + rest
    decreases ns
  {
    if ns[0].name == Target(c) {
      ChangeReachesFirst(ns, rest, c);
    } else {
      var first, others, changed := Tags(ns[0]), TagsAll(ns[1..]), ChangedKids(ns[1..], c);
      OtherKid(ns[0], c);
      Associative(first, others, rest);
      SkipPrefix(first, others + rest, c);
      ChangeReachesKid(ns[1..], rest, c);
      TagsOfFirst(ns[0], changed);
      Associative(first, TagsAll(changed), rest);
    }
  }

  lemma {:induction false} ChangedKidsKeepShape(ns: seq<Node>, c: Change)
    requires PlainProps(ns)
    ensures PlainProps(ChangedKids(ns, c)) && |ChangedKids(ns, c)| == |ns|
    ensures forall name :: CountNamed(ChangedKids(ns, c), name) == CountNamed(ns, name)
    decreases ns
  {
    if ns != [] { ChangedKidsKeepShape(ns[1..], c); }
  }

  /** Rewriting the block text of a `sectPr` gives the text of the rewritten element. */
  lemma EditedBlockIsEditedSect(sect: Node, s: Section)
    requires Editable(sect)
    ensures EditedBlock(Tags(sect), s) == Tags(EditedSect(sect, s)) && Editable(EditedSect(sect, s))
  {
    ChangeInBlock(sect, TurnOf(s));
    var turned := sect.(kids := ChangedKids(sect.kids, TurnOf(s)));
    if NeedsTrim(s) {
      ChangeInBlock(turned, TrimOf(s));
    }
  }

  lemma ChangeInBlock(sect: Node, c: Change)
    requires Editable(sect)
    ensures var edited := sect.(kids := ChangedKids(sect.kids, c));
            ChangeFirst(Tags(sect), c) == Tags(edited) && Editable(edited)
  {
    var close := [Close(SectPr)];
    var inner := TagsAll(sect.kids) + close;
    ChangedKidsKeepShape(sect.kids, c);
    assert Tags(sect) == [Open(SectPr, sect.attrs)] + inner;
    SkipPrefix([Open(SectPr, sect.attrs)], inner, c);
    if CountNamed(sect.kids, Target(c)) == 1 {
      ChangeReachesKid(sect.kids, close, c);
    } else {
      UntargetedKids(sect.kids, c);
      SkipPrefix(inner, [], c);
      Unit(inner);
    }
  }

  // ----- the stream as gaps and blocks -----

  /** A stretch of tags outside section properties, or a `sectPr` with the section it ends. */
  datatype Piece = Gap(tags: seq<Tag>) | Block(sect: Node, section: Section)

  function Pieces(n: Node, sections: seq<Section>): seq<Piece>
    requires |sections| == |Sects(n)|
    decreases n
  {
    if n.name == SectPr then [Block(n, sections[0])]
    else if n.selfClosed && n.kids == [] then [Gap([Void(n.name, n.attrs)])]
    else [Gap([Open(n.name, n.attrs)])] + PiecesAll(n.kids, sections) + [Gap([Close(n.name)])]
  }

  function PiecesAll(ns: seq<Node>, sections: seq<Section>): seq<Piece>
    requires |sections| == |SectsAll(ns)|
    decreases ns
  {
    if ns == [] then []
    else
      var c := |Sects(ns[0])|;
      Pieces(ns[0], sections[..c]) + PiecesAll(ns[1..], sections[c..])
  }

  function Text(p: Piece): seq<Tag> {
    if p.Gap? then p.tags else Tags(p.sect)
  }

  /** The text of a piece after normalization. */
  function NewText(p: Piece): seq<Tag> {
    if p.Gap? then p.tags else Tags(NewSect(p.sect, p.section))
  }

  function Flat(ps: seq<Piece>): seq<Tag> {
    if ps == [] then [] else Text(ps[0]) + Flat(ps[1..])
  }

  function NewFlat(ps: seq<Piece>): seq<Tag> {
    if ps == [] then [] else NewText(ps[0]) + NewFlat(ps[1..])
  }

  function BlockSections(ps: seq<Piece>): seq<Section> {
    if ps == [] then []
    else if ps[0].Block? then [ps[0].section] + BlockSections(ps[1..])
    else BlockSections(ps[1..])
  }

  function BlockSects(ps: seq<Piece>): seq<Node> {
    if ps == [] then []
    else if ps[0].Block? then [ps[0].sect] + BlockSects(ps[1..])
    else BlockSects(ps[1..])
  }

  predicate Proper(p: Piece) {
    if p.Gap? then NoneNamed(p.tags, SectPr) else p.sect.name == SectPr
  }

  predicate Separated(ps: seq<Piece>) {
    forall i :: 0 <= i < |ps| ==> Proper(ps[i])
  }

  lemma {:induction false} PiecesConcat(ps: seq<Piece>, qs: seq<Piece>)
    ensures Flat(ps + qs) == Flat(ps) + Flat(qs)
    ensures NewFlat(ps + qs) == NewFlat(ps) + NewFlat(qs)
    ensures BlockSections(ps + qs) == BlockSections(ps) + BlockSections(qs)
    ensures BlockSects(ps + qs) == BlockSects(ps) + BlockSects(qs)
    decreases ps
  {
    if ps == [] {
      assert ps + qs == qs;
    } else {
      var p, rest := ps[0], ps[1..];
      HeadOf(ps, qs);
      PiecesConcat(rest, qs);
      Associative(Text(p), Flat(rest), Flat(qs));
      Associative(NewText(p), NewFlat(rest), NewFlat(qs));
      if p.Block? {
        Associative([p.section], BlockSections(rest), BlockSections(qs));
        Associative([p.sect], BlockSects(rest), BlockSects(qs));
      }
    }
  }

  /** What a stretch of pieces spells: its text and blocks, and its text after normalization. */
  datatype Spelling = Spelling(text: seq<Tag>, sects: seq<Node>, sections: seq<Section>, newText: seq<Tag>)

  predicate Spell(ps: seq<Piece>, s: Spelling) {
    Separated(ps) && Flat(ps) == s.text && BlockSects(ps) == s.sects && BlockSections(ps) == s.sections &&
    NewFlat(ps) == s.newText
  }

  function Followed(s: Spelling, t: Spelling): Spelling {
    Spelling(s.text + t.text, s.sects + t.sects, s.sections + t.sections, s.newText + t.newText)
  }

  function OfPiece(p: Piece): Spelling {
    match p
    case Gap(tags) => Spelling(tags, [], [], tags)
    case Block(sect, section) => Spelling(Text(p), [sect], [section], NewText(p))
  }

  lemma OnePiece(p: Piece)
    requires Proper(p)
    ensures Spell([p], OfPiece(p))
  {
    Single(p);
  }

  lemma SpellBoth(ps: seq<Piece>, qs: seq<Piece>, s: Spelling, t: Spelling)
    requires Spell(ps, s) && Spell(qs, t)
    ensures Spell(ps + qs, Followed(s, t))
  {
    PiecesConcat(ps, qs);
  }

  lemma Bracketed(name: Name, attrs: Attrs, ps: seq<Piece>, s: Spelling)
    requires Spell(ps, s) && name != SectPr
    ensures var open, close := Open(name, attrs), Close(name);
            Spell([Gap([open])] + ps + [Gap([close])],
              Spelling([open] + s.text + [close], s.sects, s.sections, [open] + s.newText + [close]))
  {
    var open, close := Gap([Open(name, attrs)]), Gap([Close(name)]);
    OnePiece(open);
    OnePiece(close);
    SpellBoth([open], ps, OfPiece(open), s);
    SpellBoth([open] + ps, [close], Followed(OfPiece(open), s), OfPiece(close));
    Unit(s.sects);
    Unit(s.sections);
  }

  function SpellingOf(n: Node, sections: seq<Section>): Spelling
    requires |sections| == |Sects(n)|
  {
    Spelling(Tags(n), Sects(n), sections, Tags(Rewritten(n, sections)))
  }

  function SpellingOfAll(ns: seq<Node>, sections: seq<Section>): Spelling
    requires |sections| == |SectsAll(ns)|
  {
    Spelling(TagsAll(ns), SectsAll(ns), sections, TagsAll(RewrittenAll(ns, sections)))
  }

  /** The pieces of a tree spell its tags, hold its sections, and edit to the rewritten tree. */
  lemma {:induction false} PiecesOfNode(n: Node, sections: seq<Section>)
    requires |sections| == |Sects(n)|
    ensures Spell(Pieces(n, sections), SpellingOf(n, sections))
    decreases n
  {
    if n.name == SectPr {
      assert sections == [sections[0]];
      OnePiece(Block(n, sections[0]));
    } else if n.selfClosed && n.kids == [] {
      OnePiece(Gap([Void(n.name, n.attrs)]));
    } else {
      PiecesOfNodes(n.kids, sections);
      Bracketed(n.name, n.attrs, PiecesAll(n.kids, sections), SpellingOfAll(n.kids, sections));
    }
  }

  lemma TagsOfFirst(n: Node, rest: seq<Node>)
    ensures TagsAll([n] + rest) == Tags(n) + TagsAll(rest)
  {
    Cons(n, rest);
  }

  lemma {:induction false} PiecesOfNodes(ns: seq<Node>, sections: seq<Section>)
    requires |sections| == |SectsAll(ns)|
    ensures Spell(PiecesAll(ns, sections), SpellingOfAll(ns, sections))
    decreases ns
  {
    if ns != [] {
      var c := |Sects(ns[0])|;
      var first, rest := sections[..c], sections[c..];
      PiecesOfNode(ns[0], first);
      PiecesOfNodes(ns[1..], rest);
      SpellBoth(Pieces(ns[0], first), PiecesAll(ns[1..], rest), SpellingOf(ns[0], first), SpellingOfAll(ns[1..], rest));
      TagsOfFirst(Rewritten(ns[0], first), RewrittenAll(ns[1..], rest));
      Halves(sections, c);
    }
  }

  // ----- the blocks are where the pieces are -----

  function SpansOf(ps: seq<Piece>, at: nat): seq<Span>
    decreases ps
  {
    if ps == [] then []
    else
      var next := at + |Text(ps[0])|;
      SpanOf(ps[0], at) + SpansOf(ps[1..], next)
  }

  lemma {:induction false} BlocksSkipGap(gap: seq<Tag>, rest: seq<Tag>, at: nat)
    requires NoneNamed(gap, SectPr)
    ensures Blocks(gap + rest, at) == Blocks(rest, at + |gap|)
    decreases gap
  {
    if gap == [] {
      assert gap + rest == rest;
    } else {
      HeadOf(gap, rest);
      BlocksSkipGap(gap[1..], rest, at + 1);
    }
  }

  lemma {:induction false} ThroughFirstClose(inner: seq<Tag>, rest: seq<Tag>)
    requires Close(SectPr) !in inner
    ensures ThroughClose(inner + [Close(SectPr)] + rest) == Some(|inner| + 1)
    decreases inner
  {
    var all := inner + [Close(SectPr)] + rest;
    if inner != [] {
      assert all[0] == inner[0] && all[1..] == inner[1..] + [Close(SectPr)] + rest;
      ThroughFirstClose(inner[1..], rest);
    }
  }

  /** An element with a close tag of its own, and no property closing inside it. */
  predicate ClosesOnce(sect: Node) {
    sect.name == SectPr && !(sect.selfClosed && sect.kids == []) && Close(SectPr) !in TagsAll(sect.kids)
  }

  lemma PropTag(n: Node)
    requires PlainProp(n)
    ensures NoneNamed(Tags(n), SectPr) && SectCount(n) == 0
  {
    if n.name.PgSz? || n.name.PgMar? {
      assert SectCountAll([]) == 0;
    } else {
      InertTags(n.kids, SectPr);
      InertHoldsNone(n.kids);
    }
  }

  lemma {:induction false} PropTags(ns: seq<Node>)
    requires PlainProps(ns)
    ensures NoneNamed(TagsAll(ns), SectPr) && SectCountAll(ns) == 0
    decreases ns
  {
    if ns != [] {
      PropTag(ns[0]);
      PropTags(ns[1..]);
    }
  }

  lemma {:induction false} InertHoldsNone(ns: seq<Node>)
    requires InertAll(ns)
    ensures SectCountAll(ns) == 0
    decreases ns
  {
    if ns != [] {
      InertHoldsNone(ns[0].kids);
      InertHoldsNone(ns[1..]);
    }
  }

  lemma EditableClosesOnce(sect: Node)
    requires Editable(sect)
    ensures ClosesOnce(sect) && !Revised(sect)
  {
    PropTags(sect.kids);
  }

  lemma BlockAtHead(sect: Node, rest: seq<Tag>, at: nat)
    requires ClosesOnce(sect)
    ensures Blocks(Tags(sect) + rest, at)
         == [Span(at, at + |Tags(sect)|)] + Blocks(rest, at + |Tags(sect)|)
  {
    var inner, all := TagsAll(sect.kids), Tags(sect) + rest;
    ThroughFirstClose(inner, rest);
    assert all[1..] == inner + [Close(SectPr)] + rest;
    assert BlockLength(all) == Some(|Tags(sect)|);
    assert all[|Tags(sect)|..] == rest;
  }

  function SpanOf(p: Piece, at: nat): seq<Span> {
    if p.Block? then [Span(at, at + |Text(p)|)] else []
  }

  lemma RestOfSects(ps: seq<Piece>)
    requires ps != []
    ensures ps[0].Block? ==> BlockSects(ps)[0] == ps[0].sect && BlockSects(ps)[1..] == BlockSects(ps[1..])
    ensures ps[0].Gap? ==> BlockSects(ps) == BlockSects(ps[1..])
  {
    if ps[0].Block? { Cons(ps[0].sect, BlockSects(ps[1..])); }
  }

  predicate LeadingCloseOnce(sects: seq<Node>, m: nat) {
    m <= |sects| && forall k :: 0 <= k < m ==> ClosesOnce(sects[k])
  }

  /** The first `m` spans of both lists are the same. */
  predicate SameStart(xs: seq<Span>, ys: seq<Span>, m: nat) {
    m <= |xs| && m <= |ys| && xs[..m] == ys[..m]
  }

  lemma SameStartCons(x: Span, xs: seq<Span>, ys: seq<Span>, vs: seq<Span>, ws: seq<Span>, m: nat)
    requires 0 < m && SameStart(xs, ys, m - 1) && vs == [x] + xs && ws == [x] + ys
    ensures SameStart(vs, ws, m)
  {
    TakeCons(x, xs, m);
    TakeCons(x, ys, m);
  }

  lemma GapAtHead(ps: seq<Piece>, at: nat)
    requires ps != [] && ps[0].Gap? && Proper(ps[0])
    ensures SpansOf(ps, at) == SpansOf(ps[1..], at + |Text(ps[0])|)
    ensures Blocks(Flat(ps), at) == Blocks(Flat(ps[1..]), at + |Text(ps[0])|)
  {
    Unit(SpansOf(ps[1..], at + |Text(ps[0])|));
    BlocksSkipGap(ps[0].tags, Flat(ps[1..]), at);
  }

  lemma SpanAtHead(ps: seq<Piece>, at: nat)
    requires ps != [] && ps[0].Block?
    ensures var mid := at + |Text(ps[0])|; SpansOf(ps, at) == [Span(at, mid)] + SpansOf(ps[1..], mid)
  {
  }

  lemma BlockOfText(sect: Node, rest: seq<Tag>, text: seq<Tag>, at: nat)
    requires ClosesOnce(sect) && text == Tags(sect) + rest
    ensures var mid := at + |Tags(sect)|; Blocks(text, at) == [Span(at, mid)] + Blocks(rest, mid)
  {
    BlockAtHead(sect, rest, at);
  }

  predicate StartsAlike(ps: seq<Piece>, m: nat, at: nat) {
    SameStart(Blocks(Flat(ps), at), SpansOf(ps, at), m)
  }

  lemma StartsAlikeCons(ps: seq<Piece>, m: nat, at: nat)
    requires ps != [] && ps[0].Block? && ClosesOnce(ps[0].sect)
    requires 0 < m && StartsAlike(ps[1..], m - 1, at + |Text(ps[0])|)
    ensures StartsAlike(ps, m, at)
  {
    var mid := at + |Text(ps[0])|;
    BlockOfText(ps[0].sect, Flat(ps[1..]), Flat(ps), at);
    SpanAtHead(ps, at);
    SameStartCons(Span(at, mid), Blocks(Flat(ps[1..]), mid), SpansOf(ps[1..], mid), Blocks(Flat(ps), at),
      SpansOf(ps, at), m);
  }

  lemma StartsAlikeGap(ps: seq<Piece>, m: nat, at: nat)
    requires ps != [] && ps[0].Gap? && Proper(ps[0]) && StartsAlike(ps[1..], m, at + |Text(ps[0])|)
    ensures StartsAlike(ps, m, at)
  {
    GapAtHead(ps, at);
  }

  /** The scanner finds exactly the blocks of the pieces up to one that is self-closed or holds another's end. */
  lemma {:induction false} BlocksOfPieces(ps: seq<Piece>, m: nat, at: nat)
    requires Separated(ps) && LeadingCloseOnce(BlockSects(ps), m)
    ensures StartsAlike(ps, m, at)
    decreases ps
  {
    if m > 0 {
      RestOfSects(ps);
      if ps[0].Gap? {
        BlocksOfPieces(ps[1..], m, at + |Text(ps[0])|);
        StartsAlikeGap(ps, m, at);
      } else {
        LeadingRest(ps, m);
        BlocksOfPieces(ps[1..], m - 1, at + |Text(ps[0])|);
        StartsAlikeCons(ps, m, at);
      }
    }
  }

  lemma LeadingRest(ps: seq<Piece>, m: nat)
    requires ps != [] && ps[0].Block? && 0 < m && LeadingCloseOnce(BlockSects(ps), m)
    ensures ClosesOnce(ps[0].sect) && LeadingCloseOnce(BlockSects(ps[1..]), m - 1)
  {
    RestOfSects(ps);
    var all, rest := BlockSects(ps), BlockSects(ps[1..]);
    assert forall k :: 0 <= k < |rest| ==> rest[k] == all[k + 1];
  }
}
