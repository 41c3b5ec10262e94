/** Page arithmetic, the rewrite of one `sectPr` block and the edit loop of the normalizer. */
module DocxRewrite {
  import opened Options
  import opened DocxModel
  import opened DocxParser
  import opened Sequences

  const MIN_SIDE_MARGIN := 360
  const FIT_PAD := 60

  // ----- page arithmetic -----

  function PrintableTw(pageW: int, left: int, right: int): int {
    pageW - left - right
  }

  predicate Overflows(s: Section) {
    s.orient == Portrait && s.contentTw > PrintableTw(s.w, s.left, s.right)
  }

  function LandscapeWidth(s: Section): int {
    Max(s.w, s.h)
  }

  /** The section is too wide even for the landscape page with its own margins. */
  predicate NeedsTrim(s: Section) {
    s.contentTw > PrintableTw(LandscapeWidth(s), s.left, s.right)
  }

  function TrimmedSide(pageW: int, contentTw: int): int {
    Max(MIN_SIDE_MARGIN, (pageW - contentTw - FIT_PAD) / 2)
  }

  /** The section as its rewritten block declares it; a block without margins has none to trim. */
  function Rotated(s: Section, hasMargins: bool): Section {
    var side := TrimmedSide(LandscapeWidth(s), s.contentTw);
    var turned := s.(w := LandscapeWidth(s), h := Min(s.w, s.h), orient := Landscape);
    if NeedsTrim(s) && hasMargins then turned.(left := side, right := side) else turned
  }

  predicate Fits(s: Section) {
    s.contentTw <= PrintableTw(s.w, s.left, s.right)
  }

  /** A rewritten section fits exactly when it fits with its own or with the least margins. */
  lemma RotatedFitsExactly(s: Section)
    ensures Fits(Rotated(s, true)) <==>
              s.contentTw <= PrintableTw(LandscapeWidth(s), s.left, s.right) ||
              s.contentTw <= LandscapeWidth(s) - 2 * MIN_SIDE_MARGIN
    ensures Fits(Rotated(s, false)) <==> s.contentTw <= PrintableTw(LandscapeWidth(s), s.left, s.right)
  {
  }

  /** Trimming above the floor leaves the padding; it narrows the page only for margins below the floor. */
  lemma TrimKeepsSlack(s: Section)
    requires NeedsTrim(s)
    ensures var r := Rotated(s, true);
            (r.left > MIN_SIDE_MARGIN ==>
               FIT_PAD <= PrintableTw(r.w, r.left, r.right) - s.contentTw <= FIT_PAD + 1) &&
            (PrintableTw(r.w, r.left, r.right) < PrintableTw(r.w, s.left, s.right) <==>
               s.left + s.right < 2 * MIN_SIDE_MARGIN)
  {
  }

  // ----- one sectPr block -----

  /** Replaces the numbers and the orientation where they are written so that the source finds them. */
  function LandscapePgSz(a: Attrs, w: int, h: int): Attrs {
    a.(w := if a.written.w then Max(w, h) else a.w,
       h := if a.written.h then Min(w, h) else a.h,
       orient := if a.written.orient then Some(Landscape) else a.orient)
  }

  function TrimmedPgMar(a: Attrs, pageW: int, contentTw: int): Attrs {
    a.(left := if a.written.left then TrimmedSide(pageW, contentTw) else a.left,
       right := if a.written.right then TrimmedSide(pageW, contentTw) else a.right)
  }

  /** What the normalizer does to one geometry tag. */
  datatype Change = Turn(w: int, h: int) | Trim(pageW: int, contentTw: int)

  function Target(c: Change): Name {
    if c.Turn? then PgSz else PgMar
  }

  function Changed(c: Change, a: Attrs): Attrs {
    match c
    case Turn(w, h) => LandscapePgSz(a, w, h)
    case Trim(pageW, contentTw) => TrimmedPgMar(a, pageW, contentTw)
  }

  /** Changes the first self-closing tag the change is for; other tags stay. */
  function ChangeFirst(block: seq<Tag>, c: Change): seq<Tag>
    decreases block
  {
    if block == [] then []
    else if block[0].Void? && block[0].name == Target(c) then
      [block[0].(attrs := Changed(c, block[0].attrs))] + block[1..]
    else [block[0]] + ChangeFirst(block[1..], c)
  }

  function TurnOf(s: Section): Change {
    Turn(s.w, s.h)
  }

  function TrimOf(s: Section): Change {
    Trim(LandscapeWidth(s), s.contentTw)
  }

  function EditedBlock(block: seq<Tag>, s: Section): seq<Tag> {
    var turned := ChangeFirst(block, TurnOf(s));
    if NeedsTrim(s) then ChangeFirst(turned, TrimOf(s)) else turned
  }

  // ----- the sectPr blocks of a stream -----

  datatype Span = Span(start: nat, end: nat)

  /** Length of the shortest prefix ending in a `sectPr` close tag. */
  function ThroughClose(tags: seq<Tag>): (n: Option<nat>)
    ensures n.Some? ==> 0 < n.value <= |tags|
    decreases tags
  {
    if tags == [] then None
    else if tags[0] == Close(SectPr) then Some(1)
    else match ThroughClose(tags[1..])
         case None => None
         case Some(n) => Some(n + 1)
  }

  predicate OpensSectPr(t: Tag) {
    (t.Open? || t.Void?) && t.name == SectPr
  }

  /** How many tags the block at the head of a stream takes; a self-closing tag may stand alone. */
  function BlockLength(tags: seq<Tag>): (n: Option<nat>)
    requires tags != []
    ensures n.Some? ==> 0 < n.value <= |tags|
  {
    if !OpensSectPr(tags[0]) then None
    else match ThroughClose(tags[1..])
         case Some(n) => Some(n + 1)
         case None => if tags[0].Void? then Some(1) else None
  }

  /** The blocks of a stream that starts at position `at`, in document order. */
  function Blocks(tags: seq<Tag>, at: nat): seq<Span>
    decreases tags
  {
    if tags == [] then []
    else match BlockLength(tags)
         case Some(n) => [Span(at, at + n)] + Blocks(tags[n..], at + n)
         case None => Blocks(tags[1..], at + 1)
  }

  /** `out` holds the blocks of the stream found before position `i`. */
  predicate ScannedTo(tags: seq<Tag>, i: nat, out: seq<Span>) {
    i <= |tags| && Blocks(tags, 0) == out + Blocks(tags[i..], i)
  }

  /** One turn of the scan finds the next block. */
  lemma ScanHit(tags: seq<Tag>, i: nat, out: seq<Span>, n: nat)
    requires ScannedTo(tags, i, out) && i < |tags| && BlockLength(tags[i..]) == Some(n)
    ensures ScannedTo(tags, i + n, out + [Span(i, i + n)])
  {
    assert tags[i..][n..] == tags[i + n..];
    Associative(out, [Span(i, i + n)], Blocks(tags[i + n..], i + n));
  }

  /** Or it passes over one tag. */
  lemma ScanMiss(tags: seq<Tag>, i: nat, out: seq<Span>)
    requires ScannedTo(tags, i, out) && i < |tags| && BlockLength(tags[i..]) == None
    ensures ScannedTo(tags, i + 1, out)
  {
    DropNext(tags, i);
  }

  lemma ScanEnds(tags: seq<Tag>, out: seq<Span>)
    ensures ScannedTo(tags, 0, [])
    ensures ScannedTo(tags, |tags|, out) ==> out == Blocks(tags, 0)
  {
    Whole(tags);
    Unit(Blocks(tags, 0));
    Unit(out);
  }

  method SectPrBlocks(tags: seq<Tag>) returns (out: seq<Span>)
    ensures out == Blocks(tags, 0)
  {
    out := [];
    var i := 0;
    ScanEnds(tags, out);
    while i < |tags|
      invariant ScannedTo(tags, i, out)
      decreases |tags| - i
    {
      var length := BlockLength(tags[i..]);
      if length.Some? {
        ScanHit(tags, i, out, length.value);
        out := out + [Span(i, i + length.value)];
        i := i + length.value;
      } else {
        ScanMiss(tags, i, out);
        i := i + 1;
      }
    }
    ScanEnds(tags, out);
  }

  // ----- edits -----

  datatype Edit<T> = Edit(start: nat, end: nat, text: seq<T>)

  /** Edits of `xs` from position `at` on, in document order and apart from one another. */
  predicate Apart<T>(xs: seq<T>, edits: seq<Edit<T>>, at: nat)
    decreases edits
  {
    edits == [] ||
    (at <= edits[0].start <= edits[0].end <= |xs| && Apart(xs, edits[1..], edits[0].end))
  }

  function Spliced<T>(xs: seq<T>, e: Edit<T>): seq<T>
    requires e.start <= e.end <= |xs|
  {
    xs[..e.start] + e.text + xs[e.end..]
  }

  /** `xs` from `at` on with all edits made at once. */
  function Simultaneous<T>(xs: seq<T>, edits: seq<Edit<T>>, at: nat): seq<T>
    requires at <= |xs| && Apart(xs, edits, at)
    decreases edits
  {
    if edits == [] then xs[at..]
    else xs[at..edits[0].start] + edits[0].text + Simultaneous(xs, edits[1..], edits[0].end)
  }

  /** Text before the first edit is copied. */
  lemma CopiesBefore<T>(xs: seq<T>, edits: seq<Edit<T>>, at: nat, mid: nat)
    requires at <= mid <= |xs| && Apart(xs, edits, mid)
    ensures Apart(xs, edits, at)
    ensures Simultaneous(xs, edits, at) == xs[at..mid] + Simultaneous(xs, edits, mid)
  {
    if edits != [] {
      assert xs[at..edits[0].start] == xs[at..mid] + xs[mid..edits[0].start];
    } else {
      assert xs[at..] == xs[at..mid] + xs[mid..];
    }
  }

  lemma {:induction false} ApartSuffix<T>(xs: seq<T>, edits: seq<Edit<T>>, at: nat, k: nat)
    requires at <= |xs| && Apart(xs, edits, at) && k < |edits|
    ensures Apart(xs, edits[k..], at) && Apart(xs, edits[k + 1..], edits[k].end)
    ensures edits[k].start <= edits[k].end <= |xs|
    decreases edits
  {
    if k > 0 {
      ApartSuffix(xs, edits[1..], edits[0].end, k - 1);
      assert edits[1..][k - 1..] == edits[k..] && edits[1..][k..] == edits[k + 1..];
    } else {
      Whole(edits);
    }
  }

  /** The edit loop: later spans first, so that earlier offsets stay valid. */
  method ApplyEdits<T>(xs: seq<T>, edits: seq<Edit<T>>) returns (out: seq<T>)
    requires Apart(xs, edits, 0)
    ensures out == Simultaneous(xs, edits, 0)
  {
    out := xs;
    var k := |edits|;
    assert edits[k..] == [];
    while k > 0
      invariant 0 <= k <= |edits|
      invariant Apart(xs, edits[k..], 0)
      invariant out == Simultaneous(xs, edits[k..], 0)
    {
      var e := edits[k - 1];
      ApartSuffix(xs, edits, 0, k - 1);
      CopiesBefore(xs, edits[k..], 0, e.end);
      assert edits[k - 1..][1..] == edits[k..];
      assert out[..e.start] == xs[..e.start];
      out := Spliced(out, e);
      k := k - 1;
    }
    Whole(edits);
  }

  predicate Descending<T>(edits: seq<Edit<T>>) {
    forall i, j :: 0 <= i < j < |edits| ==> edits[i].start >= edits[j].start
  }

  predicate NonEmpty<T>(edits: seq<Edit<T>>) {
    forall i :: 0 <= i < |edits| ==> edits[i].start < edits[i].end
  }

  function Reversed<T>(xs: seq<T>): seq<T> {
    if xs == [] then [] else Reversed(xs[1..]) + [xs[0]]
  }

  lemma {:induction false} LaterStarts<T>(xs: seq<T>, edits: seq<Edit<T>>, at: nat)
    requires at <= |xs| && Apart(xs, edits, at) && NonEmpty(edits)
    ensures forall i :: 0 <= i < |edits| ==> at <= edits[i].start
    decreases edits
  {
    if edits != [] {
      LaterStarts(xs, edits[1..], edits[0].end);
      assert forall i :: 0 < i < |edits| ==> edits[i] == edits[1..][i - 1];
    }
  }

  /** The last of a descending arrangement is the first edit of the text. */
  lemma LowestIsLast<T>(xs: seq<T>, edits: seq<Edit<T>>, at: nat, sorted: seq<Edit<T>>)
    requires at <= |xs| && Apart(xs, edits, at) && NonEmpty(edits) && edits != []
    requires multiset(sorted) == multiset(edits) && Descending(sorted)
    ensures sorted != [] && sorted[|sorted| - 1] == edits[0]
  {
    assert |multiset(sorted)| == |multiset(edits)|;
    assert edits[0] in multiset(sorted);
    var i :| 0 <= i < |sorted| && sorted[i] == edits[0];
    assert sorted[|sorted| - 1] in multiset(edits);
    var j :| 0 <= j < |edits| && edits[j] == sorted[|sorted| - 1];
    LaterStarts(xs, edits[1..], edits[0].end);
    if j > 0 { assert edits[j] == edits[1..][j - 1]; }
  }

  /** Without the lowest edit both arrangements still hold the same edits, in the same orders. */
  lemma DropLowest<T>(sorted: seq<Edit<T>>, edits: seq<Edit<T>>)
    requires sorted != [] && edits != [] && sorted[|sorted| - 1] == edits[0]
    requires multiset(sorted) == multiset(edits) && Descending(sorted) && NonEmpty(edits)
    ensures var above := sorted[..|sorted| - 1];
            sorted == above + [edits[0]] && multiset(above) == multiset(edits[1..]) &&
            Descending(above) && NonEmpty(edits[1..])
  {
    var above := sorted[..|sorted| - 1];
    assert sorted == above + [edits[0]];
    assert edits == [edits[0]] + edits[1..];
    SameRest(above, edits[1..], edits[0]);
  }

  lemma SameRest<T>(xs: seq<T>, ys: seq<T>, x: T)
    requires multiset(xs + [x]) == multiset([x] + ys)
    ensures multiset(xs) == multiset(ys)
  {
    assert multiset(xs + [x]) == multiset(xs) + multiset([x]);
    assert multiset([x] + ys) == multiset([x]) + multiset(ys);
    assert multiset(xs) == multiset(xs + [x]) - multiset([x]);
    assert multiset(ys) == multiset([x] + ys) - multiset([x]);
  }

  /** Sorting by descending start is reversing: no other order of the same edits is descending. */
  lemma {:induction false} DescendingOrderIsReversal<T>(xs: seq<T>, edits: seq<Edit<T>>, at: nat, sorted: seq<Edit<T>>)
    requires at <= |xs| && Apart(xs, edits, at) && NonEmpty(edits)
    requires multiset(sorted) == multiset(edits) && Descending(sorted)
    ensures sorted == Reversed(edits)
    decreases edits
  {
    if edits == [] {
      assert |multiset(sorted)| == |multiset(edits)|;
    } else {
      LowestIsLast(xs, edits, at, sorted);
      var above := sorted[..|sorted| - 1];
      DropLowest(sorted, edits);
      DescendingOrderIsReversal(xs, edits[1..], edits[0].end, above);
    }
  }

  // ----- the normalizer -----

  predicate Within(blocks: seq<Span>, size: nat) {
    forall k :: 0 <= k < |blocks| ==> blocks[k].start <= blocks[k].end <= size
  }

  /** The edit of section `k`, when it overflows and has a block. */
  function EditOf(tags: seq<Tag>, s: Section, blocks: seq<Span>, k: nat): seq<Edit<Tag>>
    requires Within(blocks, |tags|)
  {
    if k < |blocks| && Overflows(s) then
      [Edit(blocks[k].start, blocks[k].end, EditedBlock(tags[blocks[k].start..blocks[k].end], s))]
    else []
  }

  /** The edits of sections `k..`. */
  function EditsFrom(tags: seq<Tag>, sections: seq<Section>, blocks: seq<Span>, k: nat): seq<Edit<Tag>>
    requires Within(blocks, |tags|)
    decreases |sections| - k
  {
    if k >= |sections| then []
    else EditOf(tags, sections[k], blocks, k) + EditsFrom(tags, sections, blocks, k + 1)
  }

  lemma PlanStep(tags: seq<Tag>, sections: seq<Section>, blocks: seq<Span>, k: nat, edits: seq<Edit<Tag>>,
      fixed: seq<nat>)
    requires Within(blocks, |tags|) && k < |sections|
    ensures edits + EditsFrom(tags, sections, blocks, k)
         == (edits + EditOf(tags, sections[k], blocks, k)) + EditsFrom(tags, sections, blocks, k + 1)
    ensures fixed + FixedFrom(sections, |blocks|, k)
         == (fixed + FixedOf(sections[k], |blocks|, k)) + FixedFrom(sections, |blocks|, k + 1)
  {
    Associative(edits, EditOf(tags, sections[k], blocks, k), EditsFrom(tags, sections, blocks, k + 1));
    Associative(fixed, FixedOf(sections[k], |blocks|, k), FixedFrom(sections, |blocks|, k + 1));
  }

  function FixedOf(s: Section, blocks: nat, k: nat): seq<nat> {
    if k < blocks && Overflows(s) then [k + 1] else []
  }

  /** One-based numbers of the sections an edit rewrites. */
  function FixedFrom(sections: seq<Section>, blocks: nat, k: nat): seq<nat>
    decreases |sections| - k
  {
    if k >= |sections| then []
    else FixedOf(sections[k], blocks, k) + FixedFrom(sections, blocks, k + 1)
  }

  /** A portrait section that is wider than its page between the margins. */
  predicate TooWide(s: Section) {
    s.orient == Portrait && s.contentTw + s.left + s.right > s.w
  }

  lemma {:induction false} FixedAre(sections: seq<Section>, blocks: nat, from: nat, n: nat)
    ensures n in FixedFrom(sections, blocks, from) <==>
              from < n <= |sections| && n <= blocks && TooWide(sections[n - 1])
    decreases |sections| - from
  {
    if from < |sections| { FixedAre(sections, blocks, from + 1, n); }
  }

  /** Blocks from position `at` on: in order, apart, inside a stream of `size` tags. */
  predicate InOrder(blocks: seq<Span>, at: nat, size: nat)
    decreases blocks
  {
    blocks == [] ||
    (at <= blocks[0].start < blocks[0].end <= size && InOrder(blocks[1..], blocks[0].end, size))
  }

  lemma {:induction false} BlocksInOrder(tags: seq<Tag>, at: nat)
    ensures InOrder(Blocks(tags, at), at, at + |tags|)
    ensures Within(Blocks(tags, at), at + |tags|)
    decreases tags
  {
    if tags != [] {
      match BlockLength(tags) {
        case Some(n) => BlocksInOrder(tags[n..], at + n);
        case None =>
          BlocksInOrder(tags[1..], at + 1);
          InOrderEarlier(Blocks(tags[1..], at + 1), at, at + 1, at + |tags|);
      }
    }
  }

  lemma InOrderEarlier(blocks: seq<Span>, at: nat, later: nat, size: nat)
    requires at <= later && InOrder(blocks, later, size)
    ensures InOrder(blocks, at, size)
  {
  }

  lemma {:induction false} EditsApart(tags: seq<Tag>, sections: seq<Section>, blocks: seq<Span>, k: nat, at: nat)
    requires at <= |tags| && Within(blocks, |tags|)
    requires k <= |blocks| ==> InOrder(blocks[k..], at, |tags|)
    ensures Apart(tags, EditsFrom(tags, sections, blocks, k), at)
    decreases |sections| - k
  {
    if k < |sections| {
      var here := EditOf(tags, sections[k], blocks, k);
      if k < |blocks| {
        DropNext(blocks, k);
        EditsApart(tags, sections, blocks, k + 1, blocks[k].end);
        var rest := EditsFrom(tags, sections, blocks, k + 1);
        if here == [] {
          assert here + rest == rest;
          CopiesBefore(tags, rest, at, blocks[k].end);
        } else {
          assert (here + rest)[1..] == rest;
        }
      } else {
        EditsApart(tags, sections, blocks, k + 1, at);
        assert here + EditsFrom(tags, sections, blocks, k + 1) == EditsFrom(tags, sections, blocks, k + 1);
      }
    }
  }

  function EditsOf(tags: seq<Tag>): (edits: seq<Edit<Tag>>)
    ensures Apart(tags, edits, 0)
  {
    BlocksInOrder(tags, 0);
    assert Blocks(tags, 0)[0..] == Blocks(tags, 0);
    EditsApart(tags, Parsed(tags), Blocks(tags, 0), 0, 0);
    EditsFrom(tags, Parsed(tags), Blocks(tags, 0), 0)
  }

  /** The stream with every overflowing portrait section rewritten at once. */
  function Normalized(tags: seq<Tag>): seq<Tag> {
    Simultaneous(tags, EditsOf(tags), 0)
  }

  predicate Numbered(sections: seq<Section>) {
    forall k :: 0 <= k < |sections| ==> sections[k].index == k
  }

  lemma {:induction false} BankKeepsNumbers(b: Buckets, items: seq<Item>)
    requires Numbered(b.sections)
    ensures Numbered(BankAll(b, items).sections)
    decreases items
  {
    if items != [] { BankKeepsNumbers(Bank(b, items[0]), items[1..]); }
  }

  /** Parsed sections carry their position, whatever the stream. */
  lemma {:induction false} SectionsNumbered(s: State, tags: seq<Tag>)
    requires Numbered(s.buckets.sections)
    ensures Numbered(Run(s, tags).buckets.sections)
    decreases tags
  {
    if tags != [] {
      match tags[0] {
        case Open(name, a) => OpenKeepsNumbers(s, name, a);
        case Close(name) => CloseKeepsNumbers(s, name);
        case Void(name, a) =>
          OpenKeepsNumbers(s, name, a);
          CloseKeepsNumbers(StepOpen(s, name, a), name);
      }
      SectionsNumbered(Step(s, tags[0]), tags[1..]);
    }
  }

  lemma OpenKeepsNumbers(s: State, name: Name, a: Attrs)
    requires Numbered(s.buckets.sections)
    ensures Numbered(StepOpen(s, name, a).buckets.sections)
  {
    BankKeepsNumbers(s.buckets, OpenBanked(name, a));
  }

  lemma CloseKeepsNumbers(s: State, name: Name)
    requires Numbered(s.buckets.sections)
    ensures Numbered(StepClose(s, name).buckets.sections)
  {
    BankKeepsNumbers(s.buckets, TableBanked(s.table, name) + SectBanked(s.sect, name, s.stack));
  }

  /** The detection loop: which sections overflow, and the edit of each. */
  method PlanEdits(tags: seq<Tag>, sections: seq<Section>, blocks: seq<Span>)
    returns (edits: seq<Edit<Tag>>, fixed: seq<nat>)
    requires Numbered(sections) && Within(blocks, |tags|)
    ensures edits == EditsFrom(tags, sections, blocks, 0)
    ensures fixed == FixedFrom(sections, |blocks|, 0) && |fixed| == |edits|
  {
    edits, fixed := [], [];
    ghost var allEdits, allFixed := EditsFrom(tags, sections, blocks, 0), FixedFrom(sections, |blocks|, 0);
    Unit(allEdits);
    Unit(allFixed);
    var k := 0;
    while k < |sections|
      invariant 0 <= k <= |sections|
      invariant allEdits == edits + EditsFrom(tags, sections, blocks, k)
      invariant allFixed == fixed + FixedFrom(sections, |blocks|, k)
      invariant |edits| == |fixed|
    {
      var s := sections[k];
      PlanStep(tags, sections, blocks, k, edits, fixed);
      if s.index < |blocks| && Overflows(s) {
        var block := blocks[s.index];
        var text := EditedBlock(tags[block.start..block.end], s);
        edits := edits + [Edit(block.start, block.end, text)];
        fixed := fixed + [s.index + 1];
      } else {
        Unit(edits);
        Unit(fixed);
      }
      k := k + 1;
    }
    Unit(edits);
    Unit(fixed);
  }

  method NormalizeWideSections(tags: seq<Tag>) returns (changed: bool, fixed: seq<nat>, out: seq<Tag>)
    ensures out == Normalized(tags)
    ensures changed == (EditsOf(tags) != [])
    ensures !changed ==> out == tags
    ensures fixed == FixedFrom(Parsed(tags), |Blocks(tags, 0)|, 0)
    ensures forall n :: n in fixed <==>
              0 < n <= |Parsed(tags)| && n <= |Blocks(tags, 0)| && TooWide(Parsed(tags)[n - 1])
  {
    forall n: nat ensures n in FixedFrom(Parsed(tags), |Blocks(tags, 0)|, 0) <==>
                           0 < n <= |Parsed(tags)| && n <= |Blocks(tags, 0)| && TooWide(Parsed(tags)[n - 1]) {
      FixedAre(Parsed(tags), |Blocks(tags, 0)|, 0, n);
    }
    var sections := ParseSections(tags);
    var blocks := SectPrBlocks(tags);
    BlocksInOrder(tags, 0);
    SectionsNumbered(START, tags);
    var edits;
    edits, fixed := PlanEdits(tags, sections, blocks);
    assert edits == EditsOf(tags);
    if edits == [] {
      return false, [], tags;
    }
    out := ApplyEdits(tags, edits);
    changed := true;
  }
}
