/**
 * The streaming section parser: a stack machine over tags that buckets tables and images into
 * page sections, and its meaning on document trees.
 */
module DocxParser {
  import opened Options
  import opened DocxModel
  import opened Sequences

  const EMU_PER_TWIP := 635

  /** `Math.round(emu / EMU_PER_TWIP)`: halves round up. */
  function RoundToTwips(emu: int): int {
    (2 * emu + EMU_PER_TWIP) / (2 * EMU_PER_TWIP)
  }

  datatype PageSize = PageSize(w: int, h: int, orient: Option<Orientation>)

  datatype Geometry = Geometry(size: Option<PageSize>, left: int, right: int)

  datatype Section = Section(index: nat, w: int, h: int, orient: Orientation, left: int, right: int, contentTw: int)

  /** The sections found so far and the widest content of the open one. */
  datatype Buckets = Buckets(sections: seq<Section>, maxTw: int, maxEmu: int)

  datatype TableState = TableState(depth: int, curGrid: Option<int>, tblW: int, tblInd: int, rowW: Option<int>)

  datatype SectState = SectState(pending: Option<Geometry>, paraDepth: int, bodyLevel: bool)

  datatype State = State(buckets: Buckets, table: TableState, sect: SectState, stack: seq<Name>)

  const START := State(Buckets([], 0, 0), TableState(0, None, 0, 0, None), SectState(None, -1, false), [])

  // ----- what the machine reports, item by item -----

  /** Something the parser banks against the open section, or the end of that section. */
  datatype Item =
    | Table(tw: int)
    | Image(emu: int)
    | Break(size: PageSize, left: int, right: int)

  function Ended(index: nat, size: PageSize, left: int, right: int, contentTw: int): Section {
    var orient := match size.orient
      case Some(o) => o
      case None => if size.w > size.h then Landscape else Portrait;
    Section(index, size.w, size.h, orient, left, right, contentTw)
  }

  function Bank(b: Buckets, item: Item): Buckets {
    match item
    case Table(tw) => b.(maxTw := Max(b.maxTw, tw))
    case Image(emu) => b.(maxEmu := Max(b.maxEmu, emu))
    case Break(size, left, right) =>
      Buckets(b.sections + [Ended(|b.sections|, size, left, right, Max(b.maxTw, RoundToTwips(b.maxEmu)))], 0, 0)
  }

  function BankAll(b: Buckets, items: seq<Item>): Buckets
    decreases items
  {
    if items == [] then b else BankAll(Bank(b, items[0]), items[1..])
  }

  lemma BankOne(b: Buckets, item: Item)
    ensures BankAll(b, [item]) == Bank(b, item)
  {
    Single(item);
  }

  lemma {:induction false} BankBoth(b: Buckets, xs: seq<Item>, ys: seq<Item>)
    ensures BankAll(b, xs + ys) == BankAll(BankAll(b, xs), ys)
    decreases xs
  {
    if xs == [] {
      Unit(ys);
    } else {
      HeadOf(xs, ys);
      BankBoth(Bank(b, xs[0]), xs[1..], ys);
    }
  }

  /** A geometry without a page size ends nothing. */
  function BreakOf(g: Geometry): seq<Item> {
    match g.size
    case None => []
    case Some(size) => [Break(size, g.left, g.right)]
  }

  // ----- one event -----

  function TableOpen(t: TableState, name: Name, a: Attrs): TableState {
    match name
    case Tbl => if t.depth == 0 then t.(depth := 1, tblW := 0, tblInd := 0) else t.(depth := t.depth + 1)
    case TblGrid => if t.depth == 1 then t.(curGrid := Some(0)) else t
    case GridCol => if t.curGrid.Some? then t.(curGrid := Some(t.curGrid.value + a.w)) else t
    case TblW => if t.depth == 1 && a.dxa then t.(tblW := Max(t.tblW, a.w)) else t
    case TblInd => if t.depth == 1 && a.dxa then t.(tblInd := a.w) else t
    case Tr => if t.depth == 1 then t.(rowW := Some(0)) else t
    case TcW => if t.depth == 1 && t.rowW.Some? && a.dxa then t.(rowW := Some(t.rowW.value + a.w)) else t
    case _ => t
  }

  function TableClose(t: TableState, name: Name): TableState {
    match name
    case TblGrid =>
      if t.curGrid.Some? then t.(tblW := Max(t.tblW, t.curGrid.value), curGrid := None) else t
    case Tr =>
      if t.depth == 1 && t.rowW.Some? then t.(tblW := Max(t.tblW, t.rowW.value), rowW := None) else t
    case Tbl => if t.depth == 1 then t.(depth := 0, tblW := 0, tblInd := 0, rowW := None) else t.(depth := t.depth - 1)
    case _ => t
  }

  function TableBanked(t: TableState, name: Name): seq<Item> {
    if name == Tbl && t.depth == 1 then [Table(t.tblW + Max(0, t.tblInd))] else []
  }

  /** `stack.lastIndexOf('w:p')`. */
  function LastPara(stack: seq<Name>): (i: int)
    ensures -1 <= i < |stack|
  {
    if stack == [] then -1
    else if stack[|stack| - 1] == P then |stack| - 1
    else LastPara(stack[..|stack| - 1])
  }

  /** `stack` already holds `name` on top. */
  function SectOpen(s: SectState, name: Name, a: Attrs, stack: seq<Name>): SectState {
    match name
    case SectPr =>
      var bodyLevel := |stack| >= 2 && stack[|stack| - 2] == Body;
      SectState(Some(Geometry(None, 0, 0)), if bodyLevel then -1 else LastPara(stack), bodyLevel)
    case PgSz =>
      if s.pending.Some? then s.(pending := Some(s.pending.value.(size := Some(PageSize(a.w, a.h, a.orient))))) else s
    case PgMar =>
      if s.pending.Some? then s.(pending := Some(s.pending.value.(left := a.left, right := a.right))) else s
    case _ => s
  }

  predicate SectEnds(s: SectState, name: Name, stack: seq<Name>) {
    (name == SectPr && s.bodyLevel) ||
    (name == P && s.pending.Some? && !s.bodyLevel && |stack| - 1 == s.paraDepth)
  }

  function SectClose(s: SectState, name: Name, stack: seq<Name>): SectState {
    if SectEnds(s, name, stack) then s.(pending := None) else s
  }

  function SectBanked(s: SectState, name: Name, stack: seq<Name>): seq<Item> {
    if SectEnds(s, name, stack) && s.pending.Some? then BreakOf(s.pending.value) else []
  }

  function OpenBanked(name: Name, a: Attrs): seq<Item> {
    if name == Extent then [Image(a.cx)] else []
  }

  function StepOpen(s: State, name: Name, a: Attrs): State {
    var stack := s.stack + [name];
    State(BankAll(s.buckets, OpenBanked(name, a)), TableOpen(s.table, name, a), SectOpen(s.sect, name, a, stack), stack)
  }

  function StepClose(s: State, name: Name): State {
    State(
      BankAll(s.buckets, TableBanked(s.table, name) + SectBanked(s.sect, name, s.stack)),
      TableClose(s.table, name),
      SectClose(s.sect, name, s.stack),
      if s.stack == [] then [] else s.stack[..|s.stack| - 1])
  }

  function Step(s: State, t: Tag): State {
    match t
    case Open(name, a) => StepOpen(s, name, a)
    case Close(name) => StepClose(s, name)
    case Void(name, a) => StepClose(StepOpen(s, name, a), name)
  }

  function Run(s: State, tags: seq<Tag>): State
    decreases tags
  {
    if tags == [] then s else Run(Step(s, tags[0]), tags[1..])
  }

  // ----- the parser as the source writes it -----

  /** The accumulators of one parse, updated by the open and close callbacks. */
  class SectionReader {
    var sections: seq<Section>
    var secMaxTw: int
    var secMaxEmu: int
    var tblDepth: int
    var curGrid: Option<int>
    var tblW: int
    var tblInd: int
    var rowW: Option<int>
    var pendingGeom: Option<Geometry>
    var sectParaDepth: int
    var sectIsBodyLevel: bool
    var stack: seq<Name>

    function TableNow(): TableState
      reads this
    {
      TableState(tblDepth, curGrid, tblW, tblInd, rowW)
    }

    function SectNow(): SectState
      reads this
    {
      SectState(pendingGeom, sectParaDepth, sectIsBodyLevel)
    }

    function BucketsNow(): Buckets
      reads this
    {
      Buckets(sections, secMaxTw, secMaxEmu)
    }

    function Snapshot(): State
      reads this
    {
      State(BucketsNow(), TableNow(), SectNow(), stack)
    }

    constructor ()
      ensures Snapshot() == START
    {
      sections, secMaxTw, secMaxEmu := [], 0, 0;
      tblDepth, curGrid, tblW, tblInd, rowW := 0, None, 0, 0, None;
      pendingGeom, sectParaDepth, sectIsBodyLevel := None, -1, false;
      stack := [];
    }

    method Finalize(geom: Option<Geometry>)
      modifies `sections, `secMaxTw, `secMaxEmu
      ensures BucketsNow() == BankAll(old(BucketsNow()), if geom.Some? then BreakOf(geom.value) else [])
    {
      if geom.None? || geom.value.size.None? { return; }
      var size := geom.value.size.value;
      var orient := if size.orient.Some? then size.orient.value
                    else if size.w > size.h then Landscape else Portrait;
      var contentTw := Max(secMaxTw, RoundToTwips(secMaxEmu));
      sections := sections +
        [Section(|sections|, size.w, size.h, orient, geom.value.left, geom.value.right, contentTw)];
      secMaxTw, secMaxEmu := 0, 0;
    }

    /** The table branches of the open callback; their names exclude the other branches. */
    method OnOpenTable(name: Name, a: Attrs)
      modifies `tblDepth, `curGrid, `tblW, `tblInd, `rowW
      ensures TableNow() == TableOpen(old(TableNow()), name, a)
    {
      if name == Tbl {
        tblDepth := tblDepth + 1;
        if tblDepth == 1 { tblW, tblInd := 0, 0; }
      } else if name == TblGrid && tblDepth == 1 {
        curGrid := Some(0);
      } else if name == GridCol && curGrid.Some? {
        curGrid := Some(curGrid.value + a.w);
      } else if name == TblW && tblDepth == 1 && a.dxa {
        tblW := Max(tblW, a.w);
      } else if name == TblInd && tblDepth == 1 && a.dxa {
        tblInd := a.w;
      } else if name == Tr && tblDepth == 1 {
        rowW := Some(0);
      } else if name == TcW && tblDepth == 1 && rowW.Some? && a.dxa {
        rowW := Some(rowW.value + a.w);
      }
    }

    /** The section branches of the open callback; `name` is already on the stack. */
    method OnOpenSection(name: Name, a: Attrs)
      modifies `pendingGeom, `sectParaDepth, `sectIsBodyLevel
      ensures SectNow() == SectOpen(old(SectNow()), name, a, stack)
    {
      if name == SectPr {
        pendingGeom := Some(Geometry(None, 0, 0));
        sectIsBodyLevel := |stack| >= 2 && stack[|stack| - 2] == Body;
        sectParaDepth := if sectIsBodyLevel then -1 else LastPara(stack);
      } else if name == PgSz && pendingGeom.Some? {
        pendingGeom := Some(pendingGeom.value.(size := Some(PageSize(a.w, a.h, a.orient))));
      } else if name == PgMar && pendingGeom.Some? {
        pendingGeom := Some(pendingGeom.value.(left := a.left, right := a.right));
      }
    }

    method OnOpen(name: Name, a: Attrs)
      modifies this
      ensures Snapshot() == StepOpen(old(Snapshot()), name, a)
    {
      ghost var was := Snapshot().buckets;
      stack := stack + [name];
      if name == Extent {
        BankOne(was, Image(a.cx));
        secMaxEmu := Max(secMaxEmu, a.cx);
      } else {
        OnOpenTable(name, a);
        OnOpenSection(name, a);
      }
    }

    /** The table branches of the close callback. */
    method OnCloseTable(name: Name)
      modifies `secMaxTw, `tblDepth, `curGrid, `tblW, `tblInd, `rowW
      ensures TableNow() == TableClose(old(TableNow()), name)
      ensures BucketsNow() == BankAll(old(BucketsNow()), TableBanked(old(TableNow()), name))
    {
      if name == TblGrid && curGrid.Some? {
        tblW := Max(tblW, curGrid.value);
        curGrid := None;
      } else if name == Tr && tblDepth == 1 && rowW.Some? {
        tblW := Max(tblW, rowW.value);
        rowW := None;
      } else if name == Tbl {
        if tblDepth == 1 {
          BankOne(BucketsNow(), Table(tblW + Max(0, tblInd)));
          secMaxTw := Max(secMaxTw, tblW + Max(0, tblInd));
          tblW, tblInd, rowW := 0, 0, None;
        }
        tblDepth := tblDepth - 1;
      }
    }

    /** The section branches of the close callback; `name` is still on the stack. */
    method OnCloseSection(name: Name)
      modifies `sections, `secMaxTw, `secMaxEmu, `pendingGeom
      ensures SectNow() == SectClose(old(SectNow()), name, stack)
      ensures BucketsNow() == BankAll(old(BucketsNow()), SectBanked(old(SectNow()), name, stack))
    {
      if name == SectPr && sectIsBodyLevel {
        Finalize(pendingGeom);
        pendingGeom := None;
      } else if name == P && pendingGeom.Some? && !sectIsBodyLevel && |stack| - 1 == sectParaDepth {
        Finalize(pendingGeom);
        pendingGeom := None;
      }
    }

    method OnClose(name: Name)
      modifies this
      ensures Snapshot() == StepClose(old(Snapshot()), name)
    {
      ghost var was := Snapshot();
      BankBoth(was.buckets, TableBanked(was.table, name), SectBanked(was.sect, name, was.stack));
      OnCloseTable(name);
      OnCloseSection(name);
      if stack != [] { stack := stack[..|stack| - 1]; }
    }
  }

  /** The parse has reached position `i` in state `s`. */
  predicate RanTo(tags: seq<Tag>, i: nat, s: State) {
    i <= |tags| && Run(START, tags) == Run(s, tags[i..])
  }

  lemma RunStep(tags: seq<Tag>, i: nat, s: State)
    requires RanTo(tags, i, s) && i < |tags|
    ensures RanTo(tags, i + 1, Step(s, tags[i]))
  {
    DropNext(tags, i);
  }

  lemma RunEnds(tags: seq<Tag>, s: State)
    ensures RanTo(tags, 0, START) && (RanTo(tags, |tags|, s) ==> s == Run(START, tags))
  {
    Whole(tags);
  }

  method ParseSections(tags: seq<Tag>) returns (sections: seq<Section>)
    ensures sections == Parsed(tags)
  {
    var reader := new SectionReader();
    var i := 0;
    RunEnds(tags, START);
    while i < |tags|
      invariant fresh(reader)
      invariant RanTo(tags, i, reader.Snapshot())
      decreases |tags| - i
    {
      RunStep(tags, i, reader.Snapshot());
      match tags[i] {
        case Open(name, a) => reader.OnOpen(name, a);
        case Close(name) => reader.OnClose(name);
        case Void(name, a) =>
          reader.OnOpen(name, a);
          reader.OnClose(name);
      }
      i := i + 1;
    }
    RunEnds(tags, reader.Snapshot());
    sections := reader.sections;
  }

  function Parsed(tags: seq<Tag>): seq<Section> {
    Run(START, tags).buckets.sections
  }
}
