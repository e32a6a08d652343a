/** The parsed C declarations the renderer consumes. One constructor per node
    class the renderer knows; `Primitive` stands for the primitive type
    classes, each with its C spelling (`c_name`). */
module CAst {
  import opened Options

  /** An identifier, absent for anonymous declarations. */
  type Ident = Option<string>

  /** Where a declaration comes from: the path of its header, if known. */
  datatype Location = Location(headerName: Option<string>)

  /** A primitive C type; `Void` is told apart because a lone `void`
      parameter means "no parameters". */
  datatype Prim = Void | Scalar(cName: string)

  function CName(p: Prim): string {
    match p
    case Void => "void"
    case Scalar(n) => n
  }

  datatype Node =
    | Typedef(loc: Option<Location>, identifier: Ident, typ: Node)
    | Struct(loc: Option<Location>, identifier: Ident, isOpaque: bool, fields: seq<Node>)
    | Union(loc: Option<Location>, identifier: Ident, isOpaque: bool, fields: seq<Node>)
    | Enum(loc: Option<Location>, identifier: Ident, isOpaque: bool, fields: seq<Node>)
    | EnumValue(loc: Option<Location>, identifier: Ident)
    | Field(loc: Option<Location>, identifier: Ident, typ: Node)
    | Function(loc: Option<Location>, identifier: Ident, resType: Node, arguments: seq<Node>)
    | Argument(loc: Option<Location>, identifier: Ident, typ: Node)
    | Pointer(loc: Option<Location>, typ: Node)
    | Array(loc: Option<Location>, typ: Node, dim: Option<nat>)
    | Primitive(prim: Prim)

  /** The node's location; the primitive type classes carry none. */
  function LocOf(n: Node): Option<Location> {
    if n.Primitive? then None else n.loc
  }

  /** The node kinds that have a `typ` attribute. */
  predicate HasTyp(n: Node) {
    n.Typedef? || n.Field? || n.Argument? || n.Pointer? || n.Array?
  }

  /** A rendering unit: `path` selects the items that belong to it,
      `headerName` is what the extern block names. */
  datatype Header = Header(path: string, headerName: string)

  /** `'%s' % identifier`: Python spells an absent identifier `None`. */
  function Show(id: Ident): string {
    match id
    case Some(s) => s
    case None => "None"
  }
}
