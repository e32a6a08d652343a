/** `ExternRenderer` (cwrap/renderers.py): walks the items of one parsed
    header and writes a `cdef extern from` block declaring the items that
    belong to that header, registering a `from _<module> cimport *` import
    for every node it meets that comes from another header.

    The visitor threads a `Code` builder as the source does. Two reference
    definitions state what a visit does: `Text` is the text it appends and
    `Origins` the import modules it registers; every visit function is
    proved to agree with them. The source's node stack is replaced by an
    explicit `Enclosing` argument, since only the immediate parent is ever
    consulted. */
module Renderer {
  import opened Options
  import opened Strings
  import opened Sorting
  import opened CodeBuilder
  import opened CAst
  import opened Declarators

  /** What the node stack says about the parent of a struct/union/enum. */
  datatype Enclosing = NotTypedef | UnderTypedef(alias: Ident)

  /* ---------------------------------------------------------------------
     Cross-header imports.
     --------------------------------------------------------------------- */

  /** `'_' + os.path.split(header_name)[-1].rstrip('.h')`. `rstrip` takes a
      set of characters, so every trailing `.` and `h` goes:
      `graph.h` gives `_grap`. */
  function ImportModule(headerName: string): (r: string)
    ensures |r| > 0 && r[0] == '_'
    ensures r[|r| - 1] != '.' && r[|r| - 1] != 'h'
    ensures '/' !in r
    ensures |r| - 1 <= |Basename(headerName)| && r[1..] == Basename(headerName)[..|r| - 1]
    ensures var b := Basename(headerName); forall i | |r| - 1 <= i < |b| :: b[i] == '.' || b[i] == 'h'
  {
    var base := Basename(headerName);
    var stem := RStrip(base, {'.', 'h'});
    StrippedTail(base);
    var r := "_" + stem;
    assert r[1..] == stem && |r| - 1 == |stem|;
    r
  }

  /** What `rstrip('.h')` removes is only dots and `h`s, and what it keeps
      of a name without `/` holds none. */
  lemma StrippedTail(base: string)
    ensures var stem := RStrip(base, {'.', 'h'});
      forall i | |stem| <= i < |base| :: base[i] == '.' || base[i] == 'h'
    ensures '/' !in base ==> '/' !in RStrip(base, {'.', 'h'})
  {
    var hs := {'.', 'h'};
    var stem := RStrip(base, hs);
    if '/' !in base {
      forall i | 0 <= i < |stem|
        ensures stem[i] != '/'
      {
        assert stem[i] == base[i];
      }
    }
    forall i | |stem| <= i < |base|
      ensures base[i] == '.' || base[i] == 'h'
    {
      assert base[i] in hs;
    }
  }

  /** The location names a header other than the one being rendered. */
  predicate Foreign(loc: Option<Location>, h: Header) {
    loc.Some? && loc.value.headerName.Some? && loc.value.headerName.value != h.path
  }

  /** The import a location calls for, if any. */
  function OriginOf(loc: Option<Location>, h: Header): set<string> {
    if Foreign(loc, h) then {ImportModule(loc.value.headerName.value)} else {}
  }

  /** Each registered module imports exactly `*`, with no alias. */
  predicate StarEntries(m: FromRegistry) {
    forall k | k in m :: m[k] == map["*" := {}]
  }

  /** `r` is `c` with `added` registered as star imports and nothing else
      imported. */
  predicate Extends(c: Code, r: Code, added: set<string>) {
    && r.cimports == c.cimports
    && r.imports == c.imports
    && r.importsFrom == c.importsFrom
    && r.cimportsFrom.Keys == c.cimportsFrom.Keys + added
    && (StarEntries(c.cimportsFrom) ==> StarEntries(r.cimportsFrom))
  }

  /** Registering in two steps registers the union. */
  lemma ExtendsTrans(a: Code, b: Code, c: Code, x: set<string>, y: set<string>)
    requires Extends(a, b, x) && Extends(b, c, y)
    ensures Extends(a, c, x + y)
  {
  }

  /** Writing and re-indenting around a visit leave its registrations as
      they are. */
  lemma ExtendsFramed(c: Code, c1: Code, c2: Code, r: Code, added: set<string>)
    requires SameImports(c1, c) && Extends(c1, c2, added) && SameImports(r, c2)
    ensures Extends(c, r, added)
  {
  }

  /** The import step at the start of `visit` and in `render`'s else
      branch: `add_cimport_from(mod, '*')` for a foreign location. */
  function NoteOrigin(c: Code, loc: Option<Location>, h: Header): (r: Code)
    ensures r.body == c.body && r.level == c.level
    ensures Extends(c, r, OriginOf(loc, h))
  {
    if Foreign(loc, h) then
      var mod := ImportModule(loc.value.headerName.value);
      var r := AddCimportFrom(c, mod, "*", None);
      assert StarEntries(c.cimportsFrom) ==> StarEntries(r.cimportsFrom) by {
        if StarEntries(c.cimportsFrom) {
          assert r.cimportsFrom[mod]["*"] == {};
          if mod in c.cimportsFrom {
            assert r.cimportsFrom == c.cimportsFrom;
          } else {
            assert r.cimportsFrom[mod].Keys == {"*"};
            assert r.cimportsFrom[mod] == map["*" := {}];
          }
        }
      }
      r
    else c
  }

  /* ---------------------------------------------------------------------
     Which inputs the source can render without raising.
     --------------------------------------------------------------------- */

  predicate IsComposite(n: Node) {
    n.Struct? || n.Union? || n.Enum?
  }

  /** Return types `visit_Function` handles. */
  predicate ReturnHandled(t: Node) {
    t.Typedef? || t.Primitive? || t.Pointer?
  }

  /** `function.arguments[0].typ == cy_ast.Void`. */
  predicate IsVoidArgument(a: Node) {
    HasTyp(a) && a.typ == Primitive(Void)
  }

  /** The function's argument list is visited: it is neither empty nor a
      lone `void`. */
  predicate VisitsArguments(n: Node)
    requires n.Function?
  {
    |n.arguments| > 0 && !(|n.arguments| == 1 && IsVoidArgument(n.arguments[0]))
  }

  /** The source renders `n` without raising: `apply_modifier` gets a name
      whenever it needs one (it concatenates strings with it), and a lone
      argument has a `typ` to compare with `Void`. Only the nodes the
      visitor reaches are constrained. */
  predicate Renderable(n: Node)
    decreases n
  {
    match n
    case Typedef(_, _, t) => (IsComposite(t) || t.Pointer? || t.Array?) ==> Renderable(t)
    case Struct(_, _, o, fs) => !o ==> forall i | 0 <= i < |fs| :: Renderable(fs[i])
    case Union(_, _, o, fs) => !o ==> forall i | 0 <= i < |fs| :: Renderable(fs[i])
    case Enum(_, _, o, fs) => !o ==> forall i | 0 <= i < |fs| :: Renderable(fs[i])
    case EnumValue(_, _) => true
    case Field(_, id, t) => NeedsName(t) ==> id.Some?
    case Function(_, id, res, args) =>
      ReturnHandled(res) ==>
        && (NeedsName(res) ==> id.Some?)
        && (|args| == 1 ==> HasTyp(args[0]))
        && (VisitsArguments(n) ==> forall i | 0 <= i < |args| :: Renderable(args[i]))
    case Argument(_, id, t) => NeedsName(t) ==> id.Some?
    case Pointer(_, t) => Renderable(t)
    case Array(_, t, _) => Renderable(t)
    case Primitive(_) => true
  }

  /* ---------------------------------------------------------------------
     Struct/union/enum naming.
     --------------------------------------------------------------------- */

  function Keyword(n: Node): string
    requires IsComposite(n)
  {
    if n.Struct? then "struct" else if n.Union? then "union" else "enum"
  }

  /** The typedef's name equals the tag (both may be absent). */
  predicate SameName(n: Node, enc: Enclosing)
    requires IsComposite(n)
  {
    enc.UnderTypedef? && enc.alias == n.identifier
  }

  /** An anonymous tag named only by its typedef. */
  predicate AnonymousTag(n: Node, enc: Enclosing)
    requires IsComposite(n)
  {
    enc.UnderTypedef? && enc.alias != n.identifier && n.identifier.None?
  }

  /** A named tag with a typedef of a different name. */
  predicate DistinctNames(n: Node, enc: Enclosing)
    requires IsComposite(n)
  {
    enc.UnderTypedef? && enc.alias != n.identifier && n.identifier.Some?
  }

  /** How a struct/union/enum is declared: the head of the declaration and,
      when a typedef gives the tag a second name, the alias line after it. */
  datatype Spelling = Spelling(head: string, aliasLine: Option<string>)

  function SpellingOf(n: Node, enc: Enclosing): (s: Spelling)
    requires IsComposite(n)
    ensures AnonymousTag(n, enc) <==> enc.UnderTypedef? && s.head == "ctypedef " + Keyword(n) + " " + Show(enc.alias)
    ensures DistinctNames(n, enc) <==> s.aliasLine.Some?
    ensures DistinctNames(n, enc) ==> s.aliasLine == Some("ctypedef " + Show(n.identifier) + " " + Show(enc.alias) + "\n")
    ensures !AnonymousTag(n, enc) && !(n.Enum? && enc.NotTypedef? && n.identifier.None?) ==>
      s.head == "cdef " + Keyword(n) + " " + Show(n.identifier)
    ensures n.Enum? && enc.NotTypedef? && n.identifier.None? ==> s.head == "cdef enum"
  {
    var kw := Keyword(n);
    var tag := n.identifier;
    var named := "cdef " + kw + " " + Show(tag);
    assert named[1] == 'd';
    match enc
    case UnderTypedef(td) =>
      assert ("ctypedef " + kw + " " + Show(td))[1] == 't';
      if td == tag then Spelling(named, None)
      else if tag.None? then Spelling("ctypedef " + kw + " " + Show(td), None)
      else Spelling(named, Some("ctypedef " + Show(tag) + " " + Show(td) + "\n"))
    case NotTypedef =>
      if n.Enum? && tag.None? then Spelling("cdef enum", None)
      else Spelling(named, None)
  }

  /* ---------------------------------------------------------------------
     Reference definition 1: the text a visit appends at a given level.
     --------------------------------------------------------------------- */

  function Text(n: Node, enc: Enclosing, level: int): string
    requires Renderable(n)
    decreases n, 3
  {
    match n
    case Typedef(_, _, _) => TypedefText(n, level)
    case Struct(_, _, _, _) => CompositeText(n, enc, level)
    case Union(_, _, _, _) => CompositeText(n, enc, level)
    case Enum(_, _, _, _) => CompositeText(n, enc, level)
    case EnumValue(_, id) => Indentation(level) + (Show(id) + "\n")
    case Field(_, id, t) => Indentation(level) + (DeclString(TypedName(t, id)) + "\n")
    case Function(_, _, _, _) => FunctionText(n, level)
    case Argument(_, id, t) => DeclString(TypedName(t, id))
    case Pointer(_, t) => Text(t, NotTypedef, level)
    case Array(_, t, _) => Text(t, NotTypedef, level)
    case Primitive(_) => ""
  }

  /** A typedef of a struct/union/enum is that type's declaration under
      the typedef's name; of a pointer/array, `ctypedef` with the type's
      spelling; of a typedef or primitive, a one-line `ctypedef`. */
  function TypedefText(n: Node, level: int): string
    requires n.Typedef? && Renderable(n)
    decreases n, 2
  {
    var id := n.identifier;
    var t := n.typ;
    if IsComposite(t) then Text(t, UnderTypedef(id), level)
    else if t.Pointer? || t.Array? then
      Indentation(level) + "ctypedef " + Text(t, NotTypedef, level) + (" " + Show(id) + "\n\n")
    else if t.Typedef? then Indentation(level) + ("ctypedef " + Show(t.identifier) + " " + Show(id) + "\n\n")
    else if t.Primitive? then Indentation(level) + ("ctypedef " + CName(t.prim) + " " + Show(id) + "\n\n")
    else ""
  }

  /** Declaration, optional alias line, and the one blank line that ends
      every struct/union/enum. */
  function CompositeText(n: Node, enc: Enclosing, level: int): string
    requires IsComposite(n) && Renderable(n)
    decreases n, 2
  {
    var s := SpellingOf(n, enc);
    if s.aliasLine.Some? then BlockText(s.head, n, level) + (Indentation(level) + s.aliasLine.value) + "\n"
    else BlockText(s.head, n, level) + "\n"
  }

  /** Head line, then (unless opaque) the members one level deeper. */
  function BlockText(head: string, n: Node, level: int): string
    requires IsComposite(n) && Renderable(n)
    decreases n, 1
  {
    if n.isOpaque then Indentation(level) + (head + "\n")
    else Indentation(level) + (head + ":\n") + FieldsText(n, 0, level + 1)
  }

  function FieldsText(n: Node, i: nat, level: int): string
    requires IsComposite(n) && Renderable(n) && !n.isOpaque && i <= |n.fields|
    decreases n, 0, |n.fields| - i
  {
    if i == |n.fields| then ""
    else Text(n.fields[i], NotTypedef, level) + FieldsText(n, i + 1, level)
  }

  /** The return type and name, `(`, the parameters and `)` with a blank
      line; a placeholder line for a return type not handled. */
  function FunctionText(n: Node, level: int): string
    requires n.Function? && Renderable(n)
    decreases n, 2
  {
    if ReturnHandled(n.resType) then
      var d := TypedName(n.resType, n.identifier);
      Indentation(level) + (d.typeName + " ") + (Show(d.declarator) + "(") + ParamsText(n, level) + ")\n\n"
    else Indentation(level) + (Undefined + "\n\n")
  }

  /** The parameter list: a placeholder for no arguments, nothing for a
      lone `void`, otherwise the arguments joined by `, `. */
  function ParamsText(n: Node, level: int): string
    requires n.Function? && Renderable(n) && ReturnHandled(n.resType)
    decreases n, 1
  {
    if |n.arguments| == 0 then Undefined
    else if !VisitsArguments(n) then ""
    else Join(ArgTexts(n, 0, level), ", ")
  }

  function ArgTexts(n: Node, i: nat, level: int): (r: seq<string>)
    requires n.Function? && Renderable(n) && ReturnHandled(n.resType) && VisitsArguments(n)
    requires i <= |n.arguments|
    ensures |r| == |n.arguments| - i
    ensures forall j | 0 <= j < |r| :: r[j] == Text(n.arguments[i + j], NotTypedef, level)
    decreases n, 0, |n.arguments| - i
  {
    if i == |n.arguments| then []
    else [Text(n.arguments[i], NotTypedef, level)] + ArgTexts(n, i + 1, level)
  }

  /* ---------------------------------------------------------------------
     Reference definition 2: the import modules a visit registers.
     --------------------------------------------------------------------- */

  function Origins(n: Node, h: Header): set<string>
    decreases n, 2
  {
    OriginOf(LocOf(n), h) + InnerOrigins(n, h)
  }

  /** What the dispatched `visit_*` method registers for the node's parts. */
  function InnerOrigins(n: Node, h: Header): set<string>
    decreases n, 1
  {
    match n
    case Typedef(_, _, t) => if IsComposite(t) || t.Pointer? || t.Array? then Origins(t, h) else {}
    case Struct(_, _, o, _) => if o then {} else FieldsOrigins(n, 0, h)
    case Union(_, _, o, _) => if o then {} else FieldsOrigins(n, 0, h)
    case Enum(_, _, o, _) => if o then {} else FieldsOrigins(n, 0, h)
    case Function(_, _, res, _) =>
      if ReturnHandled(res) && VisitsArguments(n) then ArgsOrigins(n, 0, h) else {}
    case Pointer(_, t) => Origins(t, h)
    case Array(_, t, _) => Origins(t, h)
    case _ => {}
  }

  function FieldsOrigins(n: Node, i: nat, h: Header): set<string>
    requires IsComposite(n) && i <= |n.fields|
    decreases n, 0, |n.fields| - i
  {
    if i == |n.fields| then {} else Origins(n.fields[i], h) + FieldsOrigins(n, i + 1, h)
  }

  function ArgsOrigins(n: Node, i: nat, h: Header): set<string>
    requires n.Function? && i <= |n.arguments|
    decreases n, 0, |n.arguments| - i
  {
    if i == |n.arguments| then {} else Origins(n.arguments[i], h) + ArgsOrigins(n, i + 1, h)
  }

  /* ---------------------------------------------------------------------
     The visitor.
     --------------------------------------------------------------------- */

  /** `visit(node)`: register the node's import, then dispatch on its kind.
      The indent level is left as found, the body grows by `Text` and the
      imports by `Origins`. */
  function Visit(c: Code, n: Node, enc: Enclosing, h: Header): (r: Code)
    requires Renderable(n)
    ensures r.level == c.level
    ensures r.body == c.body + Text(n, enc, c.level)
    ensures Extends(c, r, Origins(n, h))
    decreases n, 4
  {
    var c1 := NoteOrigin(c, LocOf(n), h);
    var r := VisitParts(c1, n, enc, h);
    ExtendsTrans(c, c1, r, OriginOf(LocOf(n), h), InnerOrigins(n, h));
    r
  }

  /** The dispatch of `visit`, after the node's own import. */
  function VisitParts(c: Code, n: Node, enc: Enclosing, h: Header): (r: Code)
    requires Renderable(n)
    ensures r.level == c.level
    ensures r.body == c.body + Text(n, enc, c.level)
    ensures Extends(c, r, InnerOrigins(n, h))
    decreases n, 3
  {
    match n
    case Typedef(_, _, _) => VisitTypedef(c, n, h)
    case Struct(_, _, _, _) => VisitComposite(c, n, enc, h)
    case Union(_, _, _, _) => VisitComposite(c, n, enc, h)
    case Enum(_, _, _, _) => VisitComposite(c, n, enc, h)
    case Function(_, _, _, _) => VisitFunction(c, n, h)
    case Pointer(_, t) => Visit(c, t, NotTypedef, h)
    case Array(_, t, _) => Visit(c, t, NotTypedef, h)
    case _ => VisitLeaf(c, n)
  }

  /** `visit_EnumValue`, `visit_Field` and `visit_Argument`, which write one
      spelling and visit nothing further; a primitive type writes nothing. */
  function VisitLeaf(c: Code, n: Node): (r: Code)
    requires n.EnumValue? || n.Field? || n.Argument? || n.Primitive?
    requires Renderable(n)
    ensures r.level == c.level && SameImports(r, c)
    ensures r.body == c.body + Text(n, NotTypedef, c.level)
  {
    var ind := Indentation(c.level);
    match n
    case EnumValue(_, id) =>
      AppendAssoc(c.body, ind, Show(id) + "\n");
      WriteI(c, Show(id) + "\n")
    case Field(_, id, t) =>
      var line := DeclString(TypedName(t, id)) + "\n";
      AppendAssoc(c.body, ind, line);
      WriteI(c, line)
    case Argument(_, id, t) => Write(c, DeclString(TypedName(t, id)))
    case Primitive(_) => c
  }

  /** `visit_Typedef`: a struct/union/enum is visited knowing its typedef;
      pointer and array types are spelled through the visit of the type;
      typedef and primitive types give a one-line `ctypedef`; anything
      else writes nothing. */
  function VisitTypedef(c: Code, n: Node, h: Header): (r: Code)
    requires n.Typedef? && Renderable(n)
    ensures r.level == c.level
    ensures r.body == c.body + TypedefText(n, c.level)
    ensures Extends(c, r, if IsComposite(n.typ) || n.typ.Pointer? || n.typ.Array? then Origins(n.typ, h) else {})
    decreases n, 2
  {
    var ind := Indentation(c.level);
    var id := n.identifier;
    var t := n.typ;
    if IsComposite(t) then Visit(c, t, UnderTypedef(id), h)
    else if t.Pointer? || t.Array? then VisitModifiedTypedef(c, n, h)
    else if t.Typedef? then
      var line := "ctypedef " + Show(t.identifier) + " " + Show(id) + "\n\n";
      AppendAssoc(c.body, ind, line);
      WriteI(c, line)
    else if t.Primitive? then
      var line := "ctypedef " + CName(t.prim) + " " + Show(id) + "\n\n";
      AppendAssoc(c.body, ind, line);
      WriteI(c, line)
    else c
  }

  /** `visit_Typedef` of a pointer or array type: `ctypedef `, then
      whatever the visit of the type writes, then the alias. */
  function VisitModifiedTypedef(c: Code, n: Node, h: Header): (r: Code)
    requires n.Typedef? && Renderable(n) && (n.typ.Pointer? || n.typ.Array?)
    ensures r.level == c.level
    ensures r.body == c.body + TypedefText(n, c.level)
    ensures Extends(c, r, Origins(n.typ, h))
    decreases n, 1
  {
    var ind := Indentation(c.level);
    var t := n.typ;
    var c1 := WriteI(c, "ctypedef ");
    var c2 := Visit(c1, t, NotTypedef, h);
    var tail := " " + Show(n.identifier) + "\n\n";
    LineAssoc(c.body, ind, "ctypedef ", Text(t, NotTypedef, c.level), tail, "");
    assert c2.body + tail + "" == c2.body + tail;
    assert ind + "ctypedef " + Text(t, NotTypedef, c.level) + tail + "" == TypedefText(n, c.level);
    var r := Write(c2, tail);
    ExtendsFramed(c, c1, c2, r, Origins(t, h));
    r
  }

  /** `visit_Struct`, `visit_Union` and `visit_Enum`, which differ only in
      the keyword and in the anonymous top-level enum. */
  function VisitComposite(c: Code, n: Node, enc: Enclosing, h: Header): (r: Code)
    requires IsComposite(n) && Renderable(n)
    ensures r.level == c.level
    ensures r.body == c.body + CompositeText(n, enc, c.level)
    ensures Extends(c, r, if n.isOpaque then {} else FieldsOrigins(n, 0, h))
    decreases n, 2
  {
    var s := SpellingOf(n, enc);
    var c1 := Block(c, s.head, n, h);
    var block := BlockText(s.head, n, c.level);
    if s.aliasLine.Some? then
      var alias := Indentation(c.level) + s.aliasLine.value;
      AppendAssoc(c.body + block, Indentation(c.level), s.aliasLine.value);
      AppendAssoc(c.body, block, alias);
      AppendAssoc(c.body, block + alias, "\n");
      Write(WriteI(c1, s.aliasLine.value), "\n")
    else
      AppendAssoc(c.body, block, "\n");
      Write(c1, "\n")
  }

  /** The head line, then for a defined aggregate `:`, one level deeper
      every member, and back. */
  function Block(c: Code, head: string, n: Node, h: Header): (r: Code)
    requires IsComposite(n) && Renderable(n)
    ensures r.level == c.level
    ensures r.body == c.body + BlockText(head, n, c.level)
    ensures Extends(c, r, if n.isOpaque then {} else FieldsOrigins(n, 0, h))
    decreases n, 1
  {
    var ind := Indentation(c.level);
    if n.isOpaque then
      AppendAssoc(c.body, ind, head + "\n");
      WriteI(c, head + "\n")
    else
      var c1 := Indent(WriteI(c, head + ":\n"), 1);
      var inner := VisitFields(c1, n, 0, h);
      var r := Dedent(inner, 1);
      AppendAssoc(c.body, ind, head + ":\n");
      AppendAssoc(c.body, ind + (head + ":\n"), FieldsText(n, 0, c.level + 1));
      ExtendsFramed(c, c1, inner, r, FieldsOrigins(n, 0, h));
      r
  }

  function VisitFields(c: Code, n: Node, i: nat, h: Header): (r: Code)
    requires IsComposite(n) && Renderable(n) && !n.isOpaque && i <= |n.fields|
    ensures r.level == c.level
    ensures r.body == c.body + FieldsText(n, i, c.level)
    ensures Extends(c, r, FieldsOrigins(n, i, h))
    decreases n, 0, |n.fields| - i
  {
    if i == |n.fields| then c
    else
      var c1 := Visit(c, n.fields[i], NotTypedef, h);
      var r := VisitFields(c1, n, i + 1, h);
      AppendAssoc(c.body, Text(n.fields[i], NotTypedef, c.level), FieldsText(n, i + 1, c.level));
      ExtendsTrans(c, c1, r, Origins(n.fields[i], h), FieldsOrigins(n, i + 1, h));
      r
  }

  /** Appending the five pieces of a function line one by one appends the
      line. */
  lemma LineAssoc(x: string, i: string, a: string, b: string, p: string, t: string)
    ensures x + i + a + b + p + t == x + (i + a + b + p + t)
  {
    AppendAssoc(x, i, a);
    AppendAssoc(x, i + a, b);
    AppendAssoc(x, i + a + b, p);
    AppendAssoc(x, i + a + b + p, t);
  }

  /** `visit_Function`. */
  function VisitFunction(c: Code, n: Node, h: Header): (r: Code)
    requires n.Function? && Renderable(n)
    ensures r.level == c.level
    ensures r.body == c.body + FunctionText(n, c.level)
    ensures Extends(c, r, if ReturnHandled(n.resType) && VisitsArguments(n) then ArgsOrigins(n, 0, h) else {})
    decreases n, 2
  {
    if ReturnHandled(n.resType) then VisitSignature(c, n, h)
    else
      AppendAssoc(c.body, Indentation(c.level), Undefined + "\n\n");
      WriteI(c, Undefined + "\n\n")
  }

  /** `visit_Function` for a return type it can spell: the declaration,
      the parameter list and the closing parenthesis. */
  function VisitSignature(c: Code, n: Node, h: Header): (r: Code)
    requires n.Function? && Renderable(n) && ReturnHandled(n.resType)
    ensures r.level == c.level
    ensures r.body == c.body + FunctionText(n, c.level)
    ensures Extends(c, r, if VisitsArguments(n) then ArgsOrigins(n, 0, h) else {})
    decreases n, 1
  {
    var d := TypedName(n.resType, n.identifier);
    var c1 := Write(WriteI(c, d.typeName + " "), Show(d.declarator) + "(");
    LineAssoc(c.body, Indentation(c.level), d.typeName + " ", Show(d.declarator) + "(", ParamsText(n, c.level), ")\n\n");
    if |n.arguments| == 0 then
      AppendAssoc(c1.body, Undefined, ")\n\n");
      Write(c1, Undefined + ")\n\n")
    else if !VisitsArguments(n) then
      assert c1.body + "" == c1.body;
      Write(c1, ")\n\n")
    else
      Write(VisitArgs(c1, n, 0, h), ")\n\n")
  }

  /** Every argument but the last followed by `, `, then the last. */
  function VisitArgs(c: Code, n: Node, i: nat, h: Header): (r: Code)
    requires n.Function? && Renderable(n) && ReturnHandled(n.resType) && VisitsArguments(n)
    requires i < |n.arguments|
    ensures r.level == c.level
    ensures r.body == c.body + Join(ArgTexts(n, i, c.level), ", ")
    ensures Extends(c, r, ArgsOrigins(n, i, h))
    decreases n, 0, |n.arguments| - i
  {
    var c1 := Visit(c, n.arguments[i], NotTypedef, h);
    var t := Text(n.arguments[i], NotTypedef, c.level);
    var parts := ArgTexts(n, i, c.level);
    assert parts[0] == t;
    if i == |n.arguments| - 1 then
      assert parts == [t];
      c1
    else
      assert parts[1..] == ArgTexts(n, i + 1, c.level);
      var rest := Join(ArgTexts(n, i + 1, c.level), ", ");
      assert Join(parts, ", ") == t + ", " + rest;
      AppendAssoc(c.body, t, ", ");
      AppendAssoc(c.body, t + ", ", rest);
      var c2 := Write(c1, ", ");
      var r := VisitArgs(c2, n, i + 1, h);
      ExtendsFramed(c1, c2, r, r, ArgsOrigins(n, i + 1, h));
      ExtendsTrans(c, c1, r, Origins(n.arguments[i], h), ArgsOrigins(n, i + 1, h));
      r
  }

  /* ---------------------------------------------------------------------
     `render(module, header)`.
     --------------------------------------------------------------------- */

  /** Top-level items carry a location (the source reads
      `item.location.header_name` unguarded). */
  predicate Located(n: Node) {
    !n.Primitive? && n.loc.Some?
  }

  /** The item belongs to the header being rendered. */
  predicate Owned(n: Node, h: Header)
    requires Located(n)
  {
    n.loc.value.headerName == Some(h.path)
  }

  predicate RenderableItems(items: seq<Node>, h: Header) {
    forall i | 0 <= i < |items| :: Located(items[i]) && (Owned(items[i], h) ==> Renderable(items[i]))
  }

  /** The text of the header's own items, in input order. */
  function ItemsText(items: seq<Node>, h: Header, level: int): string
    requires RenderableItems(items, h)
    decreases |items|
  {
    if |items| == 0 then ""
    else if Owned(items[0], h) then Text(items[0], NotTypedef, level) + ItemsText(items[1..], h, level)
    else ItemsText(items[1..], h, level)
  }

  /** Imports from the visited own items and from the foreign items. */
  function ItemsOrigins(items: seq<Node>, h: Header): set<string>
    requires forall i | 0 <= i < |items| :: Located(items[i])
    decreases |items|
  {
    if |items| == 0 then {}
    else (if Owned(items[0], h) then Origins(items[0], h) else OriginOf(items[0].loc, h)) + ItemsOrigins(items[1..], h)
  }

  /** The loop of `render`. */
  function VisitItems(c: Code, items: seq<Node>, h: Header): (r: Code)
    requires RenderableItems(items, h)
    ensures r.level == c.level
    ensures r.body == c.body + ItemsText(items, h, c.level)
    ensures Extends(c, r, ItemsOrigins(items, h))
    decreases |items|
  {
    if |items| == 0 then c
    else
      var item := items[0];
      if Owned(item, h) then
        var c1 := Visit(c, item, NotTypedef, h);
        var r := VisitItems(c1, items[1..], h);
        AppendAssoc(c.body, Text(item, NotTypedef, c.level), ItemsText(items[1..], h, c.level));
        ExtendsTrans(c, c1, r, Origins(item, h), ItemsOrigins(items[1..], h));
        r
      else
        var c1 := NoteOrigin(c, item.loc, h);
        var r := VisitItems(c1, items[1..], h);
        ExtendsTrans(c, c1, r, OriginOf(item.loc, h), ItemsOrigins(items[1..], h));
        r
  }

  /** First line of the extern block, naming the header in double quotes,
      and a blank line after it. */
  function Opener(h: Header): (r: string)
    ensures |r| == |h.headerName| + 22
    ensures r[..18] == "cdef extern from \"" && r[18..18 + |h.headerName|] == h.headerName
    ensures r[|r| - 4..] == "\":\n\n"
  {
    var r := "cdef extern from \"" + h.headerName + "\":\n\n";
    assert r[..18] == "cdef extern from \"";
    assert r[18..18 + |h.headerName|] == h.headerName;
    r
  }

  /** The builder after `render`'s walk: level back to 0, the block opener
      followed by the own items one level deep, and a star import for every
      foreign module met. */
  function RenderCode(items: seq<Node>, h: Header): (r: Code)
    requires RenderableItems(items, h)
    ensures r.level == Empty.level
    ensures r.body == Opener(h) + ItemsText(items, h, 1)
    ensures r.cimports == map[] && r.imports == map[] && r.importsFrom == map[]
    ensures r.cimportsFrom.Keys == ItemsOrigins(items, h)
    ensures StarEntries(r.cimportsFrom)
  {
    var c0 := WriteI(Empty, Opener(h));
    assert c0.body == Opener(h);
    Dedent(VisitItems(Indent(c0, 1), items, h), 1)
  }

  /** `render(module, header)`: the generated file. */
  function Render(items: seq<Node>, h: Header): (r: string)
    requires RenderableItems(items, h)
    ensures r == CodeHeader + (Opener(h) + ItemsText(items, h, 1)) <==> ItemsOrigins(items, h) == {}
    ensures |r| >= |Opener(h) + ItemsText(items, h, 1)|
    ensures r[|r| - |Opener(h) + ItemsText(items, h, 1)|..] == Opener(h) + ItemsText(items, h, 1)
  {
    var c := RenderCode(items, h);
    OutputOfWalk(c, ItemsOrigins(items, h));
    Output(c)
  }

  /** `code()` after a walk that registered only cimport-froms. */
  lemma OutputOfWalk(c: Code, origins: set<string>)
    requires c.cimports == map[] && c.imports == map[] && c.importsFrom == map[]
    requires c.cimportsFrom.Keys == origins
    ensures Output(c) == CodeHeader + c.body <==> origins == {}
    ensures |Output(c)| >= |c.body| && Output(c)[|Output(c)| - |c.body|..] == c.body
  {
    NoKeys(c.cimportsFrom);
  }
}
