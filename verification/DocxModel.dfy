/**
 * A WordprocessingML body as the section normalizer sees it: a stream of tags whose numeric
 * attributes are already parsed, and the element tree such a stream serializes.
 */
module DocxModel {
  import opened Options

  /** The tag names the section parser tells apart; every other name is `Other`. */
  datatype Name =
    | Body | P | Tbl | TblGrid | GridCol | TblW | TblInd | Tr | TcW
    | Extent | SectPr | PgSz | PgMar | Other(tag: string)

  datatype Orientation = Portrait | Landscape | Unknown(text: string)

  /**
   * Which attributes a replacement would find: a number written in plain digits, and an orientation
   * that is a word or not there at all.
   */
  datatype Written = Written(w: bool, h: bool, orient: bool, left: bool, right: bool)

  /** Attributes after `int(...)`: a missing or malformed number reads as 0. */
  datatype Attrs =
    Attrs(w: int, h: int, dxa: bool, cx: int, orient: Option<Orientation>, left: int, right: int, written: Written)

  /** One tag of the stream; a self-closing tag fires both the open and the close event. */
  datatype Tag =
    | Open(name: Name, attrs: Attrs)
    | Close(name: Name)
    | Void(name: Name, attrs: Attrs)

  /** An element; `selfClosed` matters only when it has no children. */
  datatype Node = Elem(name: Name, attrs: Attrs, selfClosed: bool, kids: seq<Node>)

  function Tags(n: Node): seq<Tag>
    decreases n
  {
    if n.selfClosed && n.kids == [] then [Void(n.name, n.attrs)]
    else [Open(n.name, n.attrs)] + TagsAll(n.kids) + [Close(n.name)]
  }

  function TagsAll(ns: seq<Node>): seq<Tag>
    decreases ns
  {
    if ns == [] then [] else Tags(ns[0]) + TagsAll(ns[1..])
  }

  /** How many section properties a subtree holds, those inside another one not counted. */
  function SectCount(n: Node): nat
    decreases n
  {
    if n.name == SectPr then 1 else SectCountAll(n.kids)
  }

  function SectCountAll(ns: seq<Node>): nat
    decreases ns
  {
    if ns == [] then 0 else SectCount(ns[0]) + SectCountAll(ns[1..])
  }

  /** A section property that records a revision of itself holds its former state, another `sectPr`. */
  predicate Revised(sect: Node) {
    SectCountAll(sect.kids) > 0
  }

  /** Inside a `sectPr`: page size, page margins, former properties and elements the parser ignores. */
  predicate PageProps(n: Node)
    decreases n
  {
    (n.name.PgSz? || n.name.PgMar? || n.name.SectPr? || n.name.Other?) && PagePropsAll(n.kids)
  }

  predicate PagePropsAll(ns: seq<Node>)
    decreases ns
  {
    ns == [] || (PageProps(ns[0]) && PagePropsAll(ns[1..]))
  }

  /** Inside a `tblGrid`: columns, a former grid and elements the parser ignores. */
  predicate GridCols(n: Node)
    decreases n
  {
    (n.name.GridCol? || n.name.TblGrid? || n.name.Other?) && GridColsAll(n.kids)
  }

  predicate GridColsAll(ns: seq<Node>)
    decreases ns
  {
    ns == [] || (GridCols(ns[0]) && GridColsAll(ns[1..]))
  }

  predicate HoldsGrid(n: Node)
    decreases n
  {
    n.name == TblGrid || HoldsGridAll(n.kids)
  }

  predicate HoldsGridAll(ns: seq<Node>)
    decreases ns
  {
    ns != [] && (HoldsGrid(ns[0]) || HoldsGridAll(ns[1..]))
  }

  /** No row opens in this subtree before a nested table does. */
  predicate NoRow(n: Node)
    decreases n
  {
    n.name.Tbl? || (!n.name.Tr? && NoRowAll(n.kids))
  }

  predicate NoRowAll(ns: seq<Node>)
    decreases ns
  {
    ns == [] || (NoRow(ns[0]) && NoRowAll(ns[1..]))
  }

  /**
   * The shape a WordprocessingML document promises, as far as section parsing depends on it: a
   * `sectPr` is a child of the body or sits in a paragraph, which holds no other; page geometry
   * occurs only inside it; a `tblGrid` holds columns; rows nest only through tables. Tracked
   * revisions of section properties and of grids are part of it.
   */
  predicate Shaped(n: Node, parent: Name, inPara: bool)
    decreases n
  {
    match n.name
    case SectPr => (parent == Body || inPara) && PagePropsAll(n.kids)
    case PgSz => false
    case PgMar => false
    case Body => !inPara && ShapedAll(n.kids, Body, false)
    case P => SectCountAll(n.kids) <= 1 && ShapedAll(n.kids, P, true)
    case TblGrid => GridColsAll(n.kids)
    case Tr => NoRowAll(n.kids) && ShapedAll(n.kids, Tr, inPara)
    case _ => ShapedAll(n.kids, n.name, inPara)
  }

  predicate ShapedAll(ns: seq<Node>, parent: Name, inPara: bool)
    decreases ns
  {
    ns == [] || (Shaped(ns[0], parent, inPara) && ShapedAll(ns[1..], parent, inPara))
  }

  /** A whole document: its root element is none of the names above. */
  predicate Document(d: Node) {
    d.name.Other? && ShapedAll(d.kids, d.name, false)
  }
}
