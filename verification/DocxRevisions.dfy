/**
 * What a document says now, without the former properties that tracked revisions keep in it, and exactly
 * when the parser, which reads them too, finds the same sections.
 */
module DocxRevisions {
  import opened Options
  import opened DocxModel
  import opened DocxParser
  import opened DocxMeaning
  import opened DocxRefinement
  import opened DocxRewrite
  import opened Sequences

  // ----- the document without former properties -----

  /** The elements that hold the former properties of a table, a row, a cell, a paragraph and so on. */
  const CHANGES: set<string> :=
    {"w:sectPrChange", "w:tblGridChange", "w:tblPrChange", "w:tblPrExChange", "w:trPrChange", "w:tcPrChange",
     "w:pPrChange", "w:rPrChange"}

  predicate IsChange(n: Node) {
    n.name.Other? && n.name.tag in CHANGES
  }

  /** The tree without its former properties. */
  function Current(n: Node): Node
    decreases n
  {
    n.(kids := CurrentAll(n.kids))
  }

  function CurrentAll(ns: seq<Node>): seq<Node>
    decreases ns
  {
    if ns == [] then [] else (if IsChange(ns[0]) then [] else [Current(ns[0])]) + CurrentAll(ns[1..])
  }

  lemma CurrentFirst(ns: seq<Node>)
    requires ns != [] && !IsChange(ns[0])
    ensures CurrentAll(ns) != [] && CurrentAll(ns)[0] == Current(ns[0]) && CurrentAll(ns)[1..] == CurrentAll(ns[1..])
  {
    Cons(Current(ns[0]), CurrentAll(ns[1..]));
  }

  lemma CurrentSkips(ns: seq<Node>)
    requires ns != [] && IsChange(ns[0])
    ensures CurrentAll(ns) == CurrentAll(ns[1..])
  {
    Unit(CurrentAll(ns[1..]));
  }

  // ----- rows -----

  /** The widths of former cells in a subtree, nested tables excluded. */
  function FormerCells(n: Node): int
    decreases n
  {
    if n.name == Tbl then 0 else if IsChange(n) then RowSum(n) else FormerCellsAll(n.kids)
  }

  function FormerCellsAll(ns: seq<Node>): int
    decreases ns
  {
    if ns == [] then 0 else FormerCells(ns[0]) + FormerCellsAll(ns[1..])
  }

  lemma {:induction false} CellReadsFormer(n: Node)
    requires !IsChange(n)
    ensures RowSum(n) == RowSum(Current(n)) + FormerCells(n)
    decreases n
  {
    RowReadsFormer(n.kids);
  }

  /** The parser adds the former width of every revised cell to the width of its row. */
  lemma {:induction false} RowReadsFormer(ns: seq<Node>)
    ensures RowSumAll(ns) == RowSumAll(CurrentAll(ns)) + FormerCellsAll(ns)
    decreases ns
  {
    if ns != [] {
      RowReadsFormer(ns[1..]);
      if IsChange(ns[0]) {
        CurrentSkips(ns);
      } else {
        CurrentFirst(ns);
        CellReadsFormer(ns[0]);
      }
    }
  }

  // ----- tables -----

  /** Revisions leave what an element itself declares as it is. */
  predicate Untouched(n: Node) {
    Declared(n) == Declared(Current(n))
  }

  /** A row is untouched exactly when its former cells add nothing. */
  lemma RowUntouchedExactly(row: Node)
    requires row.name == Tr
    ensures Untouched(row) <==> FormerCellsAll(row.kids) == 0
  {
    RowReadsFormer(row.kids);
  }

  /** The widest that is declared both in the document as read and as it stands now. */
  function Shared(n: Node): nat
    decreases n
  {
    if n.name == Tbl then 0 else Max(if Untouched(n) then Declared(n) else 0, SharedAll(n.kids))
  }

  function SharedAll(ns: seq<Node>): nat
    decreases ns
  {
    if ns == [] then 0 else Max(if IsChange(ns[0]) then 0 else Shared(ns[0]), SharedAll(ns[1..]))
  }

  /** The widest that is read only because of a revision: former declarations, and rows with former cells. */
  function ReadOnly(n: Node): nat
    decreases n
  {
    if n.name == Tbl then 0 else Max(if Untouched(n) then 0 else Declared(n), ReadOnlyAll(n.kids))
  }

  function ReadOnlyAll(ns: seq<Node>): nat
    decreases ns
  {
    if ns == [] then 0 else Max(if IsChange(ns[0]) then Widths(ns[0]) else ReadOnly(ns[0]), ReadOnlyAll(ns[1..]))
  }

  /** The widest that a revision keeps from being read: rows and grids as they stand now. */
  function Missed(n: Node): nat
    decreases n
  {
    if n.name == Tbl then 0 else Max(if Untouched(n) then 0 else Declared(Current(n)), MissedAll(n.kids))
  }

  function MissedAll(ns: seq<Node>): nat
    decreases ns
  {
    if ns == [] then 0 else Max(if IsChange(ns[0]) then 0 else Missed(ns[0]), MissedAll(ns[1..]))
  }

  lemma {:induction false} WidthParts(n: Node)
    requires !IsChange(n)
    ensures Widths(n) == Max(Shared(n), ReadOnly(n)) && Widths(Current(n)) == Max(Shared(n), Missed(n))
    decreases n
  {
    if n.name != Tbl { WidthPartsAll(n.kids); }
  }

  lemma {:induction false} WidthPartsAll(ns: seq<Node>)
    ensures WidthsAll(ns) == Max(SharedAll(ns), ReadOnlyAll(ns))
    ensures WidthsAll(CurrentAll(ns)) == Max(SharedAll(ns), MissedAll(ns))
    decreases ns
  {
    if ns != [] {
      WidthPartsAll(ns[1..]);
      if IsChange(ns[0]) {
        CurrentSkips(ns);
      } else {
        CurrentFirst(ns);
        WidthParts(ns[0]);
      }
    }
  }

  // ----- indents -----

  /** The indent a stretch of a table declares last: none, one that holds now, or a former one. */
  datatype Indent = NoIndent | Now(tw: int) | Former(tw: int)

  function LastDeclared(n: Node, former: bool): Indent
    decreases n
  {
    if n.name == Tbl then NoIndent
    else if LastDeclaredAll(n.kids, former) != NoIndent then LastDeclaredAll(n.kids, former)
    else if n.name == TblInd && n.attrs.dxa then (if former then Former(n.attrs.w) else Now(n.attrs.w))
    else NoIndent
  }

  function LastDeclaredAll(ns: seq<Node>, former: bool): Indent
    decreases ns
  {
    if ns == [] then NoIndent
    else if LastDeclaredAll(ns[1..], former) != NoIndent then LastDeclaredAll(ns[1..], former)
    else LastDeclared(ns[0], former || IsChange(ns[0]))
  }

  function Applied(i: int, x: Indent): int {
    if x.NoIndent? then i else x.tw
  }

  lemma {:induction false} IndentIsRead(i: int, n: Node, former: bool)
    ensures LastIndent(i, n) == Applied(i, LastDeclared(n, former))
    decreases n
  {
    if n.name != Tbl { IndentIsReadAll(if n.name == TblInd && n.attrs.dxa then n.attrs.w else i, n.kids, former); }
  }

  lemma {:induction false} IndentIsReadAll(i: int, ns: seq<Node>, former: bool)
    ensures LastIndentAll(i, ns) == Applied(i, LastDeclaredAll(ns, former))
    decreases ns
  {
    if ns != [] {
      IndentIsRead(i, ns[0], former || IsChange(ns[0]));
      IndentIsReadAll(LastIndent(i, ns[0]), ns[1..], former);
    }
  }

  lemma {:induction false} CurrentIndent(i: int, n: Node)
    requires !IsChange(n) && !LastDeclared(n, false).Former?
    ensures LastIndent(i, Current(n)) == Applied(i, LastDeclared(n, false))
    decreases n
  {
    if n.name != Tbl { CurrentIndentAll(if n.name == TblInd && n.attrs.dxa then n.attrs.w else i, n.kids); }
  }

  lemma {:induction false} CurrentIndentAll(i: int, ns: seq<Node>)
    requires !LastDeclaredAll(ns, false).Former?
    ensures LastIndentAll(i, CurrentAll(ns)) == Applied(i, LastDeclaredAll(ns, false))
    decreases ns
  {
    if ns != [] {
      if IsChange(ns[0]) {
        CurrentSkips(ns);
        OnlyFormer(ns[0]);
        CurrentIndentAll(i, ns[1..]);
      } else {
        CurrentFirst(ns);
        CurrentIndentAll(LastIndent(i, Current(ns[0])), ns[1..]);
        if LastDeclaredAll(ns[1..], false).NoIndent? { CurrentIndent(i, ns[0]); }
      }
    }
  }

  lemma {:induction false} OnlyFormer(n: Node)
    ensures !LastDeclared(n, true).Now?
    decreases n
  {
    OnlyFormerAll(n.kids);
  }

  lemma {:induction false} OnlyFormerAll(ns: seq<Node>)
    ensures !LastDeclaredAll(ns, true).Now?
    decreases ns
  {
    if ns != [] {
      OnlyFormer(ns[0]);
      OnlyFormerAll(ns[1..]);
    }
  }

  // ----- when a revision changes the width of its table -----

  /** Revised declarations stay within the others, or miss each other's mark by nothing. */
  predicate SameWidths(table: Node) {
    ReadOnlyAll(table.kids) == MissedAll(table.kids) ||
    (ReadOnlyAll(table.kids) <= SharedAll(table.kids) && MissedAll(table.kids) <= SharedAll(table.kids))
  }

  /** The indent declared last is not a former one, or counts for as much as the current one. */
  predicate SameIndent(table: Node) {
    var last := LastDeclaredAll(table.kids, false);
    last.Former? ==> Max(0, last.tw) == Max(0, LastIndentAll(0, CurrentAll(table.kids)))
  }

  /** By how much former widths make the table wider than it is now, and how much former indents do. */
  function WidthGain(table: Node): int {
    Max(SharedAll(table.kids), ReadOnlyAll(table.kids)) - Max(SharedAll(table.kids), MissedAll(table.kids))
  }

  function IndentGain(table: Node): int {
    var last := LastDeclaredAll(table.kids, false);
    if last.Former? then Max(0, last.tw) - Max(0, LastIndentAll(0, CurrentAll(table.kids))) else 0
  }

  /**
   * A table is as wide to the parser as it is now exactly when what its revisions add to widths and to the
   * indent cancels out; without such a coincidence, exactly when its widths and its indent are both the same.
   */
  lemma TableRevisionExact(table: Node)
    ensures TableWidth(table) == TableWidth(Current(table)) + WidthGain(table) + IndentGain(table)
    ensures TableWidth(table) == TableWidth(Current(table)) <==> WidthGain(table) == -IndentGain(table)
    ensures (WidthGain(table) == 0 <==> SameWidths(table)) && (IndentGain(table) == 0 <==> SameIndent(table))
  {
    WidthPartsAll(table.kids);
    IndentIsReadAll(0, table.kids, false);
    if !LastDeclaredAll(table.kids, false).Former? { CurrentIndentAll(0, table.kids); }
  }

  // ----- the same document without former properties -----

  /** Inside a change element, outside grids and sections: former properties and nothing else. */
  predicate FormerProps(n: Node)
    decreases n
  {
    (n.name.TblW? || n.name.TblInd? || n.name.TcW? || n.name.Other?) && FormerPropsAll(n.kids)
  }

  predicate FormerPropsAll(ns: seq<Node>)
    decreases ns
  {
    ns == [] || (FormerProps(ns[0]) && FormerPropsAll(ns[1..]))
  }

  /** Change elements hold former properties, and no section property records a revision. */
  predicate Tracked(n: Node)
    decreases n
  {
    if IsChange(n) then FormerPropsAll(n.kids)
    else if n.name == SectPr then CurrentAll(n.kids) == n.kids
    else n.name == TblGrid || TrackedAll(n.kids)
  }

  predicate TrackedAll(ns: seq<Node>)
    decreases ns
  {
    ns == [] || (Tracked(ns[0]) && TrackedAll(ns[1..]))
  }

  lemma {:induction false} FormersAreQuiet(ns: seq<Node>, parent: Name, depth: nat)
    requires FormerPropsAll(ns) && parent != Body
    ensures ItemsAll(ns, parent, depth) == [] && SectCountAll(ns) == 0 && ExposedAll(ns, parent) == None
    decreases ns
  {
    if ns != [] {
      FormersAreQuiet(ns[0].kids, ns[0].name, depth);
      FormersAreQuiet(ns[1..], parent, depth);
    }
  }

  lemma ChangeIsQuiet(n: Node, parent: Name, depth: nat)
    requires IsChange(n) && Tracked(n)
    ensures Items(n, parent, depth) == [] && SectCount(n) == 0 && Exposed(n, parent) == None
  {
    FormersAreQuiet(n.kids, n.name, depth);
  }

  lemma {:induction false} CurrentGrid(ns: seq<Node>)
    requires GridColsAll(ns)
    ensures GridColsAll(CurrentAll(ns))
    decreases ns
  {
    if ns != [] {
      CurrentGrid(ns[1..]);
      if IsChange(ns[0]) {
        CurrentSkips(ns);
      } else {
        CurrentFirst(ns);
        CurrentGrid(ns[0].kids);
      }
    }
  }

  lemma {:induction false} CurrentNoRow(ns: seq<Node>)
    requires NoRowAll(ns)
    ensures NoRowAll(CurrentAll(ns))
    decreases ns
  {
    if ns != [] {
      CurrentNoRow(ns[1..]);
      if IsChange(ns[0]) {
        CurrentSkips(ns);
      } else {
        CurrentFirst(ns);
        if !ns[0].name.Tbl? { CurrentNoRow(ns[0].kids); }
      }
    }
  }

  /** Dropping the former properties keeps the section properties where they are. */
  lemma {:induction false} CurrentSects(n: Node, parent: Name, inPara: bool)
    requires Tracked(n) && Shaped(n, parent, inPara) && !IsChange(n)
    ensures SectCount(Current(n)) == SectCount(n) && Exposed(Current(n), parent) == Exposed(n, parent)
    decreases n
  {
    if n.name.TblGrid? {
      CurrentGrid(n.kids);
      NoSectInGrid(n.kids);
      NoSectInGrid(CurrentAll(n.kids));
      NothingExposed(n.kids, n.name);
      NothingExposed(CurrentAll(n.kids), n.name);
    } else if !n.name.SectPr? {
      CurrentSectsAll(n.kids, n.name, InParaBelow(n, inPara));
    }
  }

  lemma {:induction false} CurrentSectsAll(ns: seq<Node>, parent: Name, inPara: bool)
    requires TrackedAll(ns) && ShapedAll(ns, parent, inPara)
    ensures SectCountAll(CurrentAll(ns)) == SectCountAll(ns)
    ensures ExposedAll(CurrentAll(ns), parent) == ExposedAll(ns, parent)
    decreases ns
  {
    if ns != [] {
      CurrentSectsAll(ns[1..], parent, inPara);
      if IsChange(ns[0]) {
        CurrentSkips(ns);
        ChangeIsQuiet(ns[0], parent, 0);
      } else {
        CurrentFirst(ns);
        CurrentSects(ns[0], parent, inPara);
      }
    }
  }

  /** What is left is a document again. */
  lemma {:induction false} CurrentShaped(n: Node, parent: Name, inPara: bool)
    requires Tracked(n) && Shaped(n, parent, inPara) && !IsChange(n)
    ensures Shaped(Current(n), parent, inPara)
    decreases n
  {
    if n.name.TblGrid? {
      CurrentGrid(n.kids);
    } else if !n.name.SectPr? {
      CurrentShapedAll(n.kids, n.name, InParaBelow(n, inPara));
      CurrentSectsAll(n.kids, n.name, InParaBelow(n, inPara));
      if n.name.Tr? { CurrentNoRow(n.kids); }
    }
  }

  lemma {:induction false} CurrentShapedAll(ns: seq<Node>, parent: Name, inPara: bool)
    requires TrackedAll(ns) && ShapedAll(ns, parent, inPara)
    ensures ShapedAll(CurrentAll(ns), parent, inPara)
    decreases ns
  {
    if ns != [] {
      CurrentShapedAll(ns[1..], parent, inPara);
      if IsChange(ns[0]) {
        CurrentSkips(ns);
      } else {
        CurrentFirst(ns);
        CurrentShaped(ns[0], parent, inPara);
      }
    }
  }

  /** Two lists of items that differ at most in how wide their tables are. */
  predicate Alike(xs: seq<Item>, ys: seq<Item>) {
    |xs| == |ys| && forall i :: 0 <= i < |xs| ==> xs[i] == ys[i] || (xs[i].Table? && ys[i].Table?)
  }

  lemma AlikeBoth(xs: seq<Item>, ys: seq<Item>, vs: seq<Item>, ws: seq<Item>)
    requires Alike(xs, ys) && Alike(vs, ws)
    ensures Alike(xs + vs, ys + ws)
  {
  }

  lemma EndingsAlike(n: Node, parent: Name, depth: nat, inPara: bool)
    requires Tracked(n) && Shaped(n, parent, inPara) && !IsChange(n)
    ensures Alike(Ending(n, parent, depth), Ending(Current(n), parent, depth))
  {
    if n.name.P? { CurrentSectsAll(n.kids, n.name, true); }
  }

  /** Without its former properties a document holds the same images and section ends, and as many tables. */
  lemma {:induction false} ItemsAlike(n: Node, parent: Name, depth: nat, inPara: bool)
    requires Tracked(n) && Shaped(n, parent, inPara) && !IsChange(n)
    ensures Alike(Items(n, parent, depth), Items(Current(n), parent, depth))
    decreases n
  {
    var opening := OpenBanked(n.name, n.attrs);
    var inside, now := ItemsAll(n.kids, n.name, DepthInside(n, depth)),
      ItemsAll(CurrentAll(n.kids), n.name, DepthInside(n, depth));
    KidsAlike(n, depth, inPara, parent);
    EndingsAlike(n, parent, depth, inPara);
    AlikeBoth(opening, opening, inside, now);
    AlikeBoth(opening + inside, opening + now, Ending(n, parent, depth), Ending(Current(n), parent, depth));
  }

  lemma {:induction false} KidsAlike(n: Node, depth: nat, inPara: bool, parent: Name)
    requires Tracked(n) && Shaped(n, parent, inPara) && !IsChange(n)
    ensures Alike(ItemsAll(n.kids, n.name, DepthInside(n, depth)),
              ItemsAll(CurrentAll(n.kids), n.name, DepthInside(n, depth)))
    decreases n, 0
  {
    if n.name.TblGrid? {
      CurrentGrid(n.kids);
      QuietItems(n.kids, n.name, DepthInside(n, depth), true);
      QuietItems(CurrentAll(n.kids), n.name, DepthInside(n, depth), true);
    } else if !n.name.SectPr? {
      ItemsAlikeAll(n.kids, n.name, DepthInside(n, depth), InParaBelow(n, inPara));
    }
  }

  lemma {:induction false} ItemsAlikeAll(ns: seq<Node>, parent: Name, depth: nat, inPara: bool)
    requires TrackedAll(ns) && ShapedAll(ns, parent, inPara)
    ensures Alike(ItemsAll(ns, parent, depth), ItemsAll(CurrentAll(ns), parent, depth))
    decreases ns
  {
    if ns != [] {
      ItemsAlikeAll(ns[1..], parent, depth, inPara);
      if IsChange(ns[0]) {
        CurrentSkips(ns);
        ChangeIsQuiet(ns[0], parent, depth);
        Unit(ItemsAll(ns[1..], parent, depth));
      } else {
        CurrentFirst(ns);
        ItemsAlike(ns[0], parent, depth, inPara);
        AlikeBoth(Items(ns[0], parent, depth), Items(Current(ns[0]), parent, depth),
          ItemsAll(ns[1..], parent, depth), ItemsAll(CurrentAll(ns[1..]), parent, depth));
      }
    }
  }

  // ----- when the sections are the same -----

  /** The widest item that two alike lists share. */
  function SharedItems(xs: seq<Item>, ys: seq<Item>): nat
    requires |xs| == |ys|
  {
    if xs == [] then 0
    else
      Max(SharedItems(xs[..|xs| - 1], ys[..|ys| - 1]), if xs[|xs| - 1] == ys[|ys| - 1] then ItemTw(xs[|xs| - 1]) else 0)
  }

  /** The widest item of `xs` in whose place `ys` holds another. */
  function OnlyIn(xs: seq<Item>, ys: seq<Item>): nat
    requires |xs| == |ys|
  {
    if xs == [] then 0
    else Max(OnlyIn(xs[..|xs| - 1], ys[..|ys| - 1]), if xs[|xs| - 1] == ys[|ys| - 1] then 0 else ItemTw(xs[|xs| - 1]))
  }

  lemma {:induction false} WidestParts(xs: seq<Item>, ys: seq<Item>)
    requires |xs| == |ys|
    ensures Widest(xs) == Max(SharedItems(xs, ys), OnlyIn(xs, ys))
    ensures SharedItems(xs, ys) == SharedItems(ys, xs)
    decreases xs
  {
    if xs != [] { WidestParts(xs[..|xs| - 1], ys[..|ys| - 1]); }
  }

  /** The tables that revisions change are no wider, as read or as they are, than the rest of the section. */
  predicate SameWidest(xs: seq<Item>, ys: seq<Item>)
    requires |xs| == |ys|
  {
    OnlyIn(xs, ys) == OnlyIn(ys, xs) ||
    (OnlyIn(xs, ys) <= SharedItems(xs, ys) && OnlyIn(ys, xs) <= SharedItems(xs, ys))
  }

  lemma SameWidestExactly(xs: seq<Item>, ys: seq<Item>)
    requires |xs| == |ys|
    ensures Widest(xs) == Widest(ys) <==> SameWidest(xs, ys)
  {
    WidestParts(xs, ys);
    WidestParts(ys, xs);
  }

  /** What two alike lists have in common before their last items. */
  lemma AlikeBefore(xs: seq<Item>, ys: seq<Item>)
    requires Alike(xs, ys) && xs != []
    ensures Alike(xs[..|xs| - 1], ys[..|ys| - 1])
    ensures xs[|xs| - 1] == ys[|ys| - 1] || (xs[|xs| - 1].Table? && ys[|ys| - 1].Table?)
  {
  }

  lemma {:induction false} AlikeEnds(xs: seq<Item>, ys: seq<Item>)
    requires Alike(xs, ys)
    ensures |SectionsOf(xs)| == |SectionsOf(ys)| && |SinceBreak(xs)| == |SinceBreak(ys)|
    decreases xs
  {
    if xs != [] {
      AlikeBefore(xs, ys);
      AlikeEnds(xs[..|xs| - 1], ys[..|ys| - 1]);
    }
  }

  lemma AlikeSpans(xs: seq<Item>, ys: seq<Item>, k: nat, from: nat, to: nat)
    requires Alike(xs, ys) && Spans(xs, k, from, to)
    ensures Spans(ys, k, from, to)
  {
    assert Alike(xs[..to], ys[..to]);
    AlikeEnds(xs[..to], ys[..to]);
  }

  /** Between two section ends lies all the content since the first. */
  lemma {:induction false} SpanIsSinceBreak(items: seq<Item>, from: nat)
    requires from <= |items| && (from == 0 || items[from - 1].Break?)
    requires forall i :: from <= i < |items| ==> !items[i].Break?
    ensures from + |SinceBreak(items)| == |items|
    decreases items
  {
    if from < |items| { SpanIsSinceBreak(items[..|items| - 1], from); }
  }

  /** What lies between two section ends makes a section. */
  lemma {:induction false} SpanMakesSection(items: seq<Item>, k: nat, from: nat, to: nat)
    requires Spans(items, k, from, to)
    ensures MadeOf(items, k, from, to)
    decreases items
  {
    var before, last := items[..|items| - 1], items[|items| - 1];
    InitLast(items);
    if to < |before| {
      assert before[..to] == items[..to];
      SpanMakesSection(before, k, from, to);
      SectionStays(before, last, k, from, to);
    } else {
      SpanIsSinceBreak(before, from);
      SectionEnds(before, last, from);
    }
  }

  /** In every section the widest item is as wide in both lists. */
  ghost predicate SectionsAlike(xs: seq<Item>, ys: seq<Item>)
    requires Alike(xs, ys)
  {
    forall k: nat, from: nat, to: nat :: Spans(xs, k, from, to) ==> SameWidest(xs[from..to], ys[from..to])
  }

  lemma AlikeBeforeSections(xs: seq<Item>, ys: seq<Item>)
    requires Alike(xs, ys) && xs != [] && SectionsAlike(xs, ys)
    ensures Alike(xs[..|xs| - 1], ys[..|ys| - 1]) && SectionsAlike(xs[..|xs| - 1], ys[..|ys| - 1])
  {
    var before, after := xs[..|xs| - 1], ys[..|ys| - 1];
    AlikeBefore(xs, ys);
    forall k: nat, from: nat, to: nat | Spans(before, k, from, to)
      ensures SameWidest(before[from..to], after[from..to])
    {
      assert before[..to] == xs[..to] && before[from..to] == xs[from..to] && after[from..to] == ys[from..to];
      assert Spans(xs, k, from, to);
    }
  }

  /** A section end closes sections of one width, if the widest since the previous end is as wide in both lists. */
  lemma LastSectionAlike(xs: seq<Item>, ys: seq<Item>)
    requires Alike(xs, ys) && xs != [] && xs[|xs| - 1].Break? && SectionsAlike(xs, ys)
    ensures Widest(SinceBreak(xs[..|xs| - 1])) == Widest(SinceBreak(ys[..|ys| - 1]))
  {
    var before, after, last := xs[..|xs| - 1], ys[..|ys| - 1], xs[|xs| - 1];
    AlikeBefore(xs, ys);
    AlikeEnds(before, after);
    SinceBreakIsSuffix(before);
    SinceBreakIsSuffix(after);
    InitLast(xs);
    var from := |before| - |SinceBreak(before)|;
    EndSpans(before, last, from);
    SliceBeforeLast(xs, from);
    SliceBeforeLast(ys, from);
    OneSectionAlike(xs, ys, |SectionsOf(before)|, from, |before|);
  }

  lemma SliceBeforeLast(xs: seq<Item>, from: nat)
    requires xs != [] && from < |xs|
    ensures xs[..|xs| - 1][from..] == xs[from..|xs| - 1]
  {
  }

  lemma OneSectionAlike(xs: seq<Item>, ys: seq<Item>, k: nat, from: nat, to: nat)
    requires Alike(xs, ys) && SectionsAlike(xs, ys) && Spans(xs, k, from, to)
    ensures Widest(xs[from..to]) == Widest(ys[from..to])
  {
    SameWidestExactly(xs[from..to], ys[from..to]);
  }

  lemma {:induction false} SectionsFollow(xs: seq<Item>, ys: seq<Item>)
    requires Alike(xs, ys) && SectionsAlike(xs, ys)
    ensures SectionsOf(xs) == SectionsOf(ys)
    decreases xs
  {
    if xs != [] {
      AlikeBefore(xs, ys);
      AlikeBeforeSections(xs, ys);
      SectionsFollow(xs[..|xs| - 1], ys[..|ys| - 1]);
      if xs[|xs| - 1].Break? { LastSectionAlike(xs, ys); }
    }
  }

  /** Alike lists make the same sections exactly when the widest of every section is as wide in both. */
  lemma SameSectionsExactly(xs: seq<Item>, ys: seq<Item>)
    requires Alike(xs, ys)
    ensures SectionsOf(xs) == SectionsOf(ys) <==> SectionsAlike(xs, ys)
  {
    if SectionsOf(xs) == SectionsOf(ys) {
      forall k: nat, from: nat, to: nat | Spans(xs, k, from, to) ensures SameWidest(xs[from..to], ys[from..to]) {
        AlikeSpans(xs, ys, k, from, to);
        SpanMakesSection(xs, k, from, to);
        SpanMakesSection(ys, k, from, to);
        SameWidestExactly(xs[from..to], ys[from..to]);
      }
    }
    if SectionsAlike(xs, ys) { SectionsFollow(xs, ys); }
  }

  /**
   * The parser finds in a document the sections it has without its former properties exactly when, in every
   * section, the tables that revisions change are no wider than the rest, as read and as they are now, or
   * widest by the same.
   */
  lemma RevisionsHarmlessExactly(d: Node)
    requires Document(d) && TrackedAll(d.kids)
    ensures Document(Current(d))
    ensures var read, now := ItemsAll(d.kids, d.name, 0), ItemsAll(CurrentAll(d.kids), d.name, 0);
            Alike(read, now) && |Parsed(Tags(d))| == |Parsed(Tags(Current(d)))| &&
            (Parsed(Tags(d)) == Parsed(Tags(Current(d))) <==> SectionsAlike(read, now))
  {
    CurrentShapedAll(d.kids, d.name, false);
    ItemsAlikeAll(d.kids, d.name, 0, false);
    ParserMeetsMeaning(d);
    ParserMeetsMeaning(Current(d));
    AlikeEnds(ItemsAll(d.kids, d.name, 0), ItemsAll(CurrentAll(d.kids), d.name, 0));
    SameSectionsExactly(ItemsAll(d.kids, d.name, 0), ItemsAll(CurrentAll(d.kids), d.name, 0));
  }

  // ----- a page turned by a former width -----

  const PLAIN := Attrs(0, 0, false, 0, None, 0, 0, Written(true, true, true, true, true))

  function Inner(name: Name, kids: seq<Node>): Node {
    Elem(name, PLAIN, false, kids)
  }

  function CellWidth(tw: int): Node {
    Elem(TcW, PLAIN.(w := tw, dxa := true), true, [])
  }

  function Wrap(tag: string, kids: seq<Node>): seq<Node> {
    [Inner(Other(tag), kids)]
  }

  function FormerCell(tw: int): seq<Node> {
    Wrap("w:tcPrChange", Wrap("w:tcPr", [CellWidth(tw)]))
  }

  /** A row with one cell. */
  function CellRow(props: seq<Node>): Node {
    Inner(Tr, Wrap("w:tc", Wrap("w:tcPr", props)))
  }

  /** A row with one cell `tw` wide that was `former` wide. */
  function RevisedRow(tw: int, former: int): Node {
    CellRow([CellWidth(tw)] + FormerCell(former))
  }

  function PageOf(w: int, h: int, margin: int): Node {
    Inner(SectPr, [Elem(PgSz, PLAIN.(w := w, h := h), true, []),
                   Elem(PgMar, PLAIN.(left := margin, right := margin), true, [])])
  }

  /** A letter page with inch margins that holds one table of one row. */
  function OneRowBody(row: Node): Node {
    Inner(Body, [Inner(Tbl, [row]), PageOf(12240, 15840, 1440)])
  }

  function OneRowDocument(row: Node): Node {
    Inner(Other("w:document"), [OneRowBody(row)])
  }

  /** Rows that hold cell widths only, former ones among them. */
  predicate WidthsOnly(row: Node) {
    row.name == Tr && FormerPropsAll(row.kids) && NoRowAll(row.kids) && WidthsAll(row.kids) == 0 &&
    LastIndentAll(0, row.kids) == 0 && RowSumAll(row.kids) >= 0
  }

  /** The properties of a cell `w` wide in all, which hold a width now and perhaps a former one. */
  predicate CellProps(props: seq<Node>, w: int) {
    FormerPropsAll(props) && TrackedAll(props) && NoRowAll(props) && WidthsAll(props) == 0 &&
    LastIndentAll(0, props) == 0 && RowSumAll(props) == w
  }

  lemma Wrapped(tag: string, kids: seq<Node>)
    ensures var ns := Wrap(tag, kids);
            FormerPropsAll(ns) == FormerPropsAll(kids) && NoRowAll(ns) == NoRowAll(kids) &&
            WidthsAll(ns) == WidthsAll(kids) && LastIndentAll(0, ns) == LastIndentAll(0, kids) &&
            RowSumAll(ns) == RowSumAll(kids) &&
            TrackedAll(ns) == (if tag in CHANGES then FormerPropsAll(kids) else TrackedAll(kids)) &&
            CurrentAll(ns) == if tag in CHANGES then [] else Wrap(tag, CurrentAll(kids))
  {
    Single(Inner(Other(tag), kids));
    assert FormerPropsAll([]) && NoRowAll([]) && TrackedAll([]);
    assert WidthsAll([]) == 0 && RowSumAll([]) == 0 && CurrentAll([]) == [];
  }

  lemma WidthAlone(tw: nat)
    ensures CellProps([CellWidth(tw)], tw) && CurrentAll([CellWidth(tw)]) == [CellWidth(tw)]
  {
    Single(CellWidth(tw));
    assert FormerPropsAll([]) && NoRowAll([]) && TrackedAll([]);
    assert WidthsAll([]) == 0 && RowSumAll([]) == 0 && CurrentAll([]) == [];
    assert Current(CellWidth(tw)) == CellWidth(tw);
    assert RowSum(CellWidth(tw)) == tw && Widths(CellWidth(tw)) == 0 && LastIndent(0, CellWidth(tw)) == 0;
  }

  lemma FormerAlone(former: nat)
    ensures CellProps(FormerCell(former), former) && CurrentAll(FormerCell(former)) == []
  {
    WidthAlone(former);
    Wrapped("w:tcPr", [CellWidth(former)]);
    Wrapped("w:tcPrChange", Wrap("w:tcPr", [CellWidth(former)]));
  }

  /** A width followed by a former one. */
  lemma WidthAndFormer(tw: nat, former: nat)
    ensures var props := [CellWidth(tw)] + FormerCell(former);
            CellProps(props, tw + former) && CurrentAll(props) == [CellWidth(tw)]
  {
    WidthAlone(tw);
    FormerAlone(former);
    Cons(CellWidth(tw), FormerCell(former));
    Single(CellWidth(tw));
    Unit([CellWidth(tw)]);
    var props := [CellWidth(tw)] + FormerCell(former);
    assert FormerProps(CellWidth(tw)) && Tracked(CellWidth(tw)) && NoRow(CellWidth(tw));
    assert RowSum(CellWidth(tw)) == tw && Widths(CellWidth(tw)) == 0 && LastIndent(0, CellWidth(tw)) == 0;
    assert Current(CellWidth(tw)) == CellWidth(tw);
    assert CurrentAll(props) == [CellWidth(tw)] + CurrentAll(FormerCell(former));
  }

  lemma WrapKeeps(tag: string, props: seq<Node>, w: int)
    requires CellProps(props, w) && tag !in CHANGES
    ensures CellProps(Wrap(tag, props), w) && CurrentAll(Wrap(tag, props)) == Wrap(tag, CurrentAll(props))
  {
    Wrapped(tag, props);
  }

  lemma RowIsWidthsOnly(kids: seq<Node>, w: nat)
    requires CellProps(kids, w)
    ensures WidthsOnly(Inner(Tr, kids))
  {
  }

  lemma RowOfProps(props: seq<Node>, w: nat)
    requires CellProps(props, w)
    ensures WidthsOnly(CellRow(props)) && RowSumAll(CellRow(props).kids) == w && TrackedAll(CellRow(props).kids)
    ensures Current(CellRow(props)) == CellRow(CurrentAll(props))
  {
    WrapKeeps("w:tcPr", props, w);
    WrapKeeps("w:tc", Wrap("w:tcPr", props), w);
    RowIsWidthsOnly(CellRow(props).kids, w);
  }

  lemma {:induction false} PropsAreShaped(ns: seq<Node>, parent: Name)
    requires FormerPropsAll(ns)
    ensures ShapedAll(ns, parent, false)
    decreases ns
  {
    if ns != [] {
      PropsAreShaped(ns[0].kids, ns[0].name);
      PropsAreShaped(ns[1..], parent);
    }
  }

  lemma PageGeometry()
    ensures GeomOf(PageOf(12240, 15840, 1440)) == Geometry(Some(PageSize(12240, 15840, None)), 1440, 1440)
    ensures SectCountAll(PageOf(12240, 15840, 1440).kids) == 0 && PagePropsAll(PageOf(12240, 15840, 1440).kids)
  {
    var page := PageOf(12240, 15840, 1440);
    var size, margins := page.kids[0], page.kids[1];
    Cons(size, [margins]);
    Single(margins);
    assert GeomAll(Geometry(None, 0, 0), page.kids) == GeomAll(Geom(Geometry(None, 0, 0), size), [margins]);
    var sized := Geometry(Some(PageSize(12240, 15840, None)), 0, 0);
    assert Geom(Geometry(None, 0, 0), size) == GeomAll(sized, []) == sized;
    assert GeomAll(sized, [margins]) == GeomAll(Geom(sized, margins), []);
    assert Geom(sized, margins) == GeomAll(sized.(left := 1440, right := 1440), []);
    assert SectCountAll([]) == 0 && PagePropsAll([]);
    assert SectCountAll([margins]) == 0 && PagePropsAll([margins]);
    assert SectCount(size) == 0 && PageProps(size);
  }

  lemma OneRowIsDocument(row: Node)
    requires WidthsOnly(row)
    ensures Document(OneRowDocument(row))
  {
    var table, page, body := Inner(Tbl, [row]), PageOf(12240, 15840, 1440), OneRowBody(row);
    PropsAreShaped(row.kids, Tr);
    PageGeometry();
    Single(row);
    Single(page);
    Single(body);
    Cons(table, [page]);
    assert ShapedAll([], Tbl, false) && ShapedAll([], Body, false) && ShapedAll([], Other("w:document"), false);
    assert ShapedAll([row], Tbl, false);
    assert ShapedAll([page], Body, false);
    assert ShapedAll(body.kids, Body, false);
    assert ShapedAll([body], Other("w:document"), false);
  }

  lemma OneRowTable(row: Node)
    requires WidthsOnly(row)
    ensures Items(Inner(Tbl, [row]), Body, 0) == [Table(RowSumAll(row.kids))]
  {
    var table := Inner(Tbl, [row]);
    Single(row);
    FormersAreQuiet(row.kids, Tr, 1);
    assert ItemsAll([], Tbl, 1) == [] && WidthsAll([]) == 0;
    assert Items(row, Tbl, 1) == [];
    assert ItemsAll(table.kids, Tbl, 1) == [];
    assert WidthsAll([row]) == RowSumAll(row.kids);
    assert LastIndentAll(0, [row]) == LastIndent(0, row) == 0;
    assert TableWidth(table) == RowSumAll(row.kids);
  }

  lemma PageBreak(page: Node, depth: nat)
    requires page.name == SectPr && PagePropsAll(page.kids) && !Revised(page)
    ensures Items(page, Body, depth) == BreakOf(GeomOf(page))
  {
    QuietItems(page.kids, SectPr, depth, false);
    assert Ending(page, Body, depth) == BreakOf(GeomOf(page));
    Unit(BreakOf(GeomOf(page)));
  }

  lemma OneRowItems(row: Node)
    requires WidthsOnly(row)
    ensures var d := OneRowDocument(row);
            ItemsAll(d.kids, d.name, 0)
              == [Table(RowSumAll(row.kids)), Break(PageSize(12240, 15840, None), 1440, 1440)]
  {
    OneRowTable(row);
    PageGeometry();
    PageBreak(PageOf(12240, 15840, 1440), 0);
    ItemsOfDocument(Inner(Tbl, [row]), PageOf(12240, 15840, 1440));
  }

  lemma ItemsOfDocument(table: Node, page: Node)
    ensures ItemsAll([Inner(Body, [table, page])], Other("w:document"), 0)
         == Items(table, Body, 0) + Items(page, Body, 0)
  {
    ItemsOfTwo(table, page, Body, 0);
    ItemsOfBody(Inner(Body, [table, page]), Other("w:document"));
    ItemsOfOne(Inner(Body, [table, page]), Other("w:document"), 0);
  }

  lemma ItemsOfOne(n: Node, parent: Name, depth: nat)
    ensures ItemsAll([n], parent, depth) == Items(n, parent, depth)
  {
    Single(n);
    Unit(Items(n, parent, depth));
    assert ItemsAll([], parent, depth) == [];
  }

  lemma ItemsOfTwo(n: Node, m: Node, parent: Name, depth: nat)
    ensures ItemsAll([n, m], parent, depth) == Items(n, parent, depth) + Items(m, parent, depth)
  {
    ItemsOfOne(m, parent, depth);
    Cons(n, [m]);
    assert [n] + [m] == [n, m];
  }

  lemma ItemsOfBody(body: Node, parent: Name)
    requires body.name == Body
    ensures Items(body, parent, 0) == ItemsAll(body.kids, Body, 0)
  {
    Unit(ItemsAll(body.kids, Body, 0));
  }

  /** Such a document has one portrait section, as wide as its row. */
  lemma OneRowSections(row: Node)
    requires WidthsOnly(row)
    ensures Parsed(Tags(OneRowDocument(row)))
         == [Section(0, 12240, 15840, Portrait, 1440, 1440, RowSumAll(row.kids))]
  {
    OneRowIsDocument(row);
    OneRowItems(row);
    ParserMeetsMeaning(OneRowDocument(row));
    OneTableSection(RowSumAll(row.kids), PageSize(12240, 15840, None), 1440);
  }

  lemma OneTableSection(tw: nat, size: PageSize, margin: int)
    ensures SectionsOf([Table(tw), Break(size, margin, margin)]) == [Ended(0, size, margin, margin, tw)]
  {
    var table, end := Table(tw), Break(size, margin, margin);
    LastOf([], table);
    LastOf([table], end);
    Unit([table]);
    assert [table] + [end] == [table, end];
    assert SectionsOf([table]) == SectionsOf([]) == [];
    assert SinceBreak([table]) == SinceBreak([]) + [table];
    assert Widest([table]) == Max(Widest([]), tw);
  }

  /** A document with one revised cell, as read and as it is now. */
  lemma RevisedCellSections(tw: nat, former: nat)
    ensures var d := OneRowDocument(RevisedRow(tw, former));
            Document(d) && TrackedAll(d.kids) &&
            Parsed(Tags(d)) == [Section(0, 12240, 15840, Portrait, 1440, 1440, tw + former)] &&
            Parsed(Tags(Current(d))) == [Section(0, 12240, 15840, Portrait, 1440, 1440, tw)]
  {
    WidthAndFormer(tw, former);
    WidthAlone(tw);
    OneCellSections([CellWidth(tw)] + FormerCell(former), tw + former);
    OneCellSections([CellWidth(tw)], tw);
  }

  lemma OneCellSections(props: seq<Node>, w: nat)
    requires CellProps(props, w)
    ensures var d := OneRowDocument(CellRow(props));
            Document(d) && TrackedAll(d.kids) &&
            Parsed(Tags(d)) == [Section(0, 12240, 15840, Portrait, 1440, 1440, w)] &&
            Current(d) == OneRowDocument(CellRow(CurrentAll(props)))
  {
    RowOfProps(props, w);
    OneRowIsDocument(CellRow(props));
    CurrentOneRow(CellRow(props), CellRow(CurrentAll(props)));
    OneRowSections(CellRow(props));
  }

  /** 9360 twips fit on the page, and so does the cell, now as before: but the parser adds both widths. */
  lemma FormerWidthTurnsPage()
    ensures var d := OneRowDocument(RevisedRow(5000, 6000));
            var read, now := Parsed(Tags(d)), Parsed(Tags(Current(d)));
            Document(d) && |read| == 1 && |now| == 1 && read[0].contentTw == 11000 && now[0].contentTw == 5000 &&
            Overflows(read[0]) && !Overflows(now[0])
  {
    RevisedCellSections(5000, 6000);
  }

  lemma CurrentOneRow(row: Node, now: Node)
    requires Current(row) == now && row.name == Tr && TrackedAll(row.kids)
    ensures Current(OneRowDocument(row)) == OneRowDocument(now) && TrackedAll(OneRowDocument(row).kids)
  {
    var table, page, body := Inner(Tbl, [row]), PageOf(12240, 15840, 1440), OneRowBody(row);
    PageIsCurrent();
    CurrentOfOne(row);
    CurrentOfTwo(table, page);
    CurrentOfOne(body);
  }

  lemma CurrentOfOne(n: Node)
    requires !IsChange(n)
    ensures CurrentAll([n]) == [Current(n)] && (TrackedAll([n]) <==> Tracked(n))
  {
    Single(n);
    assert CurrentAll([]) == [] && TrackedAll([]);
  }

  lemma CurrentOfTwo(n: Node, m: Node)
    requires !IsChange(n) && !IsChange(m)
    ensures CurrentAll([n, m]) == [Current(n), Current(m)] && (TrackedAll([n, m]) <==> Tracked(n) && Tracked(m))
  {
    CurrentOfOne(m);
    Cons(n, [m]);
    assert [n] + [m] == [n, m];
    assert [Current(n)] + [Current(m)] == [Current(n), Current(m)];
  }

  lemma PageIsCurrent()
    ensures Current(PageOf(12240, 15840, 1440)) == PageOf(12240, 15840, 1440)
  {
    var page := PageOf(12240, 15840, 1440);
    Cons(page.kids[0], [page.kids[1]]);
    Single(page.kids[1]);
    assert CurrentAll([]) == [];
    assert Current(page.kids[0]) == page.kids[0] && Current(page.kids[1]) == page.kids[1];
    assert CurrentAll([page.kids[1]]) == [page.kids[1]];
  }
}
