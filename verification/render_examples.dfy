/** Worked examples: declarations whose rendering is fixed character by
    character, including the cases where the renderer's output differs from
    what one might expect of a C-to-Cython translator. */
module RenderExamples {
  import opened Options
  import opened Strings
  import opened Sorting
  import opened CodeBuilder
  import opened CAst
  import opened Declarators
  import opened Renderer
  import opened RenderProperties

  const Int: Node := Primitive(Scalar("int"))
  const Here: Option<Location> := Some(Location(Some("point.h")))

  /* ---------------------------------------------------------------------
     Declarators.
     --------------------------------------------------------------------- */

  /** An array of four pointers: the array layer is applied first, and the
      pointer after it parenthesises the name. */
  lemma ArrayOfPointers(name: string)
    ensures ApplyModifier(Array(None, Pointer(None, Int), Some(4)), Some(name)) == Decl("int", Some("*(" + name + "[4])"))
  {
    var t := Array(None, Pointer(None, Int), Some(4));
    var s := [ArrayLayer(Some(4)), PointerLayer];
    assert Layers(t) == s;
    assert BaseOf(t) == Int;
    assert DimText(Some(4)) == "4" by { assert NatToString(4) == [DigitChar(4)]; }
    assert ApplyLayer(s, 0, name) == name + "[4]";
    assert ApplyLayer(s, 1, name + "[4]") == "*(" + name + "[4])";
    assert Fold(s, 2, "*(" + name + "[4])") == "*(" + name + "[4])";
    assert Fold(s, 0, name) == "*(" + name + "[4])";
  }

  /** A pointer to an array of four: `(*name)[4]`. */
  lemma PointerToArray(name: string)
    ensures ApplyModifier(Pointer(None, Array(None, Int, Some(4))), Some(name)) == Decl("int", Some("(*" + name + ")[4]"))
  {
    var t := Pointer(None, Array(None, Int, Some(4)));
    var s := [PointerLayer, ArrayLayer(Some(4))];
    assert Layers(t) == s;
    assert BaseOf(t) == Int;
    assert DimText(Some(4)) == "4" by { assert NatToString(4) == [DigitChar(4)]; }
    assert ApplyLayer(s, 0, name) == "*" + name;
    assert ApplyLayer(s, 1, "*" + name) == "(*" + name + ")[4]";
    assert Fold(s, 2, "(*" + name + ")[4]") == "(*" + name + ")[4]";
    assert Fold(s, 0, name) == "(*" + name + ")[4]";
  }

  /** An array without a size gets empty brackets. */
  lemma UnsizedArray()
    ensures ApplyModifier(Array(None, Int, None), Some("a")) == Decl("int", Some("a[]"))
  {
    var s := [ArrayLayer(None)];
    assert Layers(Array(None, Int, None)) == s;
    assert BaseOf(Array(None, Int, None)) == Int;
    assert ApplyLayer(s, 0, "a") == "a[]";
    assert Fold(s, 1, "a[]") == "a[]";
  }

  /** A base the renderer cannot name gives the placeholder pair. */
  lemma FunctionPointerBase()
    ensures ApplyModifier(Pointer(None, Function(None, Some("f"), Int, [])), Some("p")) == Decl(Undefined, Some(Undefined))
  {
  }

  /** A field `int *name[4]` is written with the pointer layer
      parenthesised: `int *(name[4])`. */
  lemma ArrayFieldExample(name: string)
    ensures Text(Field(Here, Some(name), Array(None, Pointer(None, Int), Some(4))), NotTypedef, 1)
      == "    " + ("int" + " " + ("*(" + name + "[4])") + "\n")
  {
    var t := Array(None, Pointer(None, Int), Some(4));
    ArrayOfPointers(name);
    assert TypedName(t, Some(name)) == Decl("int", Some("*(" + name + "[4])"));
    assert Indentation(1) == "    ";
  }

  /* ---------------------------------------------------------------------
     Import modules.
     --------------------------------------------------------------------- */

  /** The trailing `.h` goes, and so does every `h` and `.` before it. */
  lemma ImportModuleExample()
    ensures ImportModule("include/graph.h") == "_grap"
  {
    BasenameAfterSlash("include", "graph.h");
    assert "include" + "/" + "graph.h" == "include/graph.h";
    StripGraph();
  }

  lemma StripGraph()
    ensures RStrip("graph.h", {'.', 'h'}) == "grap"
  {
    var hs := {'.', 'h'};
    assert RStrip("grap", hs) == "grap";
    assert "graph"[..4] == "grap";
    assert RStrip("graph", hs) == "grap";
    assert "graph."[..5] == "graph";
    assert RStrip("graph.", hs) == "grap";
    assert "graph.h"[..6] == "graph.";
  }

  /** A plain `list.h` loses only its suffix. */
  lemma ImportModuleOfName()
    ensures ImportModule("list.h") == "_list"
  {
    BasenameOfName("list.h");
    var hs := {'.', 'h'};
    assert RStrip("list", hs) == "list";
    assert "list."[..4] == "list";
    assert RStrip("list.", hs) == "list";
    assert "list.h"[..5] == "list.";
  }

  /* ---------------------------------------------------------------------
     Declarations.
     --------------------------------------------------------------------- */

  /** `int name;` as a member line. */
  lemma IntField(name: string, level: int)
    ensures Text(Field(Here, Some(name), Int), NotTypedef, level) == Indentation(level) + "int " + name + "\n"
  {
    assert TypedName(Int, Some(name)) == Decl("int", Some(name));
    AppendAssoc(Indentation(level), "int " + name, "\n");
  }

  function TwoInts(x: string, y: string): seq<Node> {
    [Field(Here, Some(x), Int), Field(Here, Some(y), Int)]
  }

  /** `typedef struct { int x; int y; } alias;`: the anonymous struct is
      declared under the typedef's name, its members one level deeper. */
  lemma AnonymousStructExample(alias: string, x: string, y: string, level: int)
    ensures Renderable(Typedef(Here, Some(alias), Struct(Here, None, false, TwoInts(x, y))))
    ensures var outer, inner := Indentation(level), Indentation(level + 1);
      Text(Typedef(Here, Some(alias), Struct(Here, None, false, TwoInts(x, y))), NotTypedef, level)
        == outer + ("ctypedef struct " + alias + ":\n") + ((inner + "int " + x + "\n") + (inner + "int " + y + "\n")) + "\n"
  {
    var st := Struct(Here, None, false, TwoInts(x, y));
    var td := Typedef(Here, Some(alias), st);
    var head := "ctypedef struct " + alias;
    assert "ctypedef " + "struct" + " " + alias == head;
    var outer, inner := Indentation(level), Indentation(level + 1);
    assert SpellingOf(st, UnderTypedef(Some(alias))) == Spelling(head, None);
    IntField(x, level + 1);
    IntField(y, level + 1);
    var fx := inner + "int " + x + "\n";
    var fy := inner + "int " + y + "\n";
    assert FieldsText(st, 1, level + 1) == fy + "";
    assert FieldsText(st, 0, level + 1) == fx + fy;
    assert BlockText(head, st, level) == outer + (head + ":\n") + (fx + fy);
    assert Text(st, UnderTypedef(Some(alias)), level) == CompositeText(st, UnderTypedef(Some(alias)), level);
    assert TypedefText(td, level) == Text(st, UnderTypedef(Some(alias)), level);
  }

  /** `typedef struct name name;` with the struct opaque: tag and typedef
      name agree, so only the tag is declared. */
  lemma SameNameExample(name: string)
    ensures Text(Typedef(Here, Some(name), Struct(Here, Some(name), true, [])), NotTypedef, 0)
      == "cdef struct " + name + "\n\n"
  {
    var st := Struct(Here, Some(name), true, []);
    var head := "cdef struct " + name;
    assert "cdef " + "struct" + " " + name == head;
    assert SpellingOf(st, UnderTypedef(Some(name))) == Spelling(head, None);
    assert Indentation(0) == "";
    assert BlockText(head, st, 0) == head + "\n";
    assert CompositeText(st, UnderTypedef(Some(name)), 0) == head + "\n" + "\n";
    assert head + "\n" + "\n" == "cdef struct " + name + "\n\n";
    assert Text(st, UnderTypedef(Some(name)), 0) == CompositeText(st, UnderTypedef(Some(name)), 0);
  }

  /** `typedef struct tag alias;` with the struct opaque and the names
      different: the tag is declared, then the alias. */
  lemma DistinctNamesExample(tag: string, alias: string)
    requires tag != alias
    ensures Text(Typedef(Here, Some(alias), Struct(Here, Some(tag), true, [])), NotTypedef, 0)
      == ("cdef struct " + tag + "\n") + ("ctypedef " + tag + " " + alias + "\n") + "\n"
  {
    var st := Struct(Here, Some(tag), true, []);
    var head := "cdef struct " + tag;
    var line := "ctypedef " + tag + " " + alias + "\n";
    assert "cdef " + "struct" + " " + tag == head;
    assert SpellingOf(st, UnderTypedef(Some(alias))) == Spelling(head, Some(line));
    assert Indentation(0) == "";
    assert BlockText(head, st, 0) == head + "\n";
    assert Text(st, UnderTypedef(Some(alias)), 0) == CompositeText(st, UnderTypedef(Some(alias)), 0);
  }

  /** An anonymous enum outside any typedef. */
  lemma AnonymousEnumExample(a: string, b: string)
    ensures Text(Enum(Here, None, false, [EnumValue(Here, Some(a)), EnumValue(Here, Some(b))]), NotTypedef, 0)
      == "cdef enum" + ":\n" + (("    " + (a + "\n")) + ("    " + (b + "\n"))) + "\n"
  {
    var e := Enum(Here, None, false, [EnumValue(Here, Some(a)), EnumValue(Here, Some(b))]);
    assert SpellingOf(e, NotTypedef) == Spelling("cdef enum", None);
    assert Indentation(1) == "    " && Indentation(0) == "";
    var va := "    " + (a + "\n");
    var vb := "    " + (b + "\n");
    assert FieldsText(e, 1, 1) == vb + "";
    assert FieldsText(e, 0, 1) == va + vb;
    assert BlockText("cdef enum", e, 0) == "" + ("cdef enum" + ":\n") + (va + vb);
  }

  /** `typedef int *name;`: the pointer typedef visits the pointer, which
      writes nothing for a primitive pointee, so the type is lost and two
      spaces remain. */
  lemma PointerTypedefExample(name: string)
    ensures Text(Typedef(Here, Some(name), Pointer(None, Int)), NotTypedef, 0) == "ctypedef  " + name + "\n\n"
  {
    assert Indentation(0) == "";
    assert Text(Pointer(None, Int), NotTypedef, 0) == "";
  }

  /* ---------------------------------------------------------------------
     Functions.
     --------------------------------------------------------------------- */

  const VoidArg: Node := Argument(Here, None, Primitive(Void))

  /** `void name(void)`: a lone `void` parameter gives empty parentheses. */
  lemma VoidParameterExample(name: string, level: int)
    ensures Text(Function(Here, Some(name), Primitive(Void), [VoidArg]), NotTypedef, level)
      == Indentation(level) + "void " + name + "()\n\n"
  {
    var f := Function(Here, Some(name), Primitive(Void), [VoidArg]);
    assert TypedName(Primitive(Void), Some(name)) == Decl("void", Some(name));
    assert ParamsText(f, level) == "";
  }

  /** A function without parameters gets the placeholder. */
  lemma NoParameterExample(name: string)
    ensures Text(Function(Here, Some(name), Int, []), NotTypedef, 0) == "int " + name + "(__UNDEFINED__)\n\n"
  {
    var f := Function(Here, Some(name), Int, []);
    assert Indentation(0) == "";
    assert TypedName(Int, Some(name)) == Decl("int", Some(name));
    assert ParamsText(f, 0) == Undefined;
  }

  /** `int *b` as a parameter. */
  lemma PointerParameter(b: string)
    ensures Text(Argument(Here, Some(b), Pointer(None, Int)), NotTypedef, 0) == "int " + "*" + b
  {
    PointerSpelling(None, Int, b);
    var d := TypedName(Pointer(None, Int), Some(b));
    assert d == Decl("int", Some("*" + b));
    assert Text(Argument(Here, Some(b), Pointer(None, Int)), NotTypedef, 0) == DeclString(d);
    IntPointerText(b);
  }

  lemma IntPointerText(b: string)
    ensures "int" + " " + ("*" + b) == "int " + "*" + b
  {
  }

  /** `int name(int a, int *b)`: the parameters joined by `, `. */
  lemma TwoParameterExample(name: string, a: string, b: string)
    ensures Text(Function(Here, Some(name), Int, [Argument(Here, Some(a), Int), Argument(Here, Some(b), Pointer(None, Int))]), NotTypedef, 0)
      == "" + ("int" + " ") + (name + "(") + (("int " + a) + ", " + ("int " + "*" + b)) + ")\n\n"
  {
    var f := Function(Here, Some(name), Int, [Argument(Here, Some(a), Int), Argument(Here, Some(b), Pointer(None, Int))]);
    TwoParameters(f, a, b);
    assert Indentation(0) == "";
    assert TypedName(Int, Some(name)) == Decl("int", Some(name));
  }

  lemma TwoParameters(f: Node, a: string, b: string)
    requires f.Function? && f.resType == Int
    requires f.arguments == [Argument(Here, Some(a), Int), Argument(Here, Some(b), Pointer(None, Int))]
    ensures Renderable(f)
    ensures ParamsText(f, 0) == ("int " + a) + ", " + ("int " + "*" + b)
  {
    IntArgument(a);
    PointerParameter(b);
    var ta := "int " + a;
    var tb := "int " + "*" + b;
    assert Renderable(f);
    var ts := ArgTexts(f, 0, 0);
    assert ts[0] == ta && ts[1] == tb;
    assert ts == [ta, tb];
    assert Join([ta, tb], ", ") == ta + ", " + Join([tb], ", ");
  }

  /** `int a` as a parameter. */
  lemma IntArgument(a: string)
    ensures Text(Argument(Here, Some(a), Int), NotTypedef, 0) == "int " + a
  {
    assert TypedName(Int, Some(a)) == Decl("int", Some(a));
  }

  /** `typedef unsigned long size_t;` is one `ctypedef` line and a blank
      line. */
  lemma PrimitiveTypedefExample()
    ensures Text(Typedef(Here, Some("size_t"), Primitive(Scalar("unsigned long"))), NotTypedef, 0)
      == "ctypedef unsigned long size_t\n\n"
  {
    var n := Typedef(Here, Some("size_t"), Primitive(Scalar("unsigned long")));
    TypedefLines(n, 0);
    assert Indentation(0) == "";
  }

  /** `typedef edge edge_t;` names the other typedef. */
  lemma TypedefOfTypedefExample(level: int)
    ensures Text(Typedef(Here, Some("edge_t"), Typedef(Here, Some("edge"), Int)), NotTypedef, level)
      == Indentation(level) + "ctypedef edge edge_t\n\n"
  {
    var n := Typedef(Here, Some("edge_t"), Typedef(Here, Some("edge"), Int));
    TypedefLines(n, level);
  }

  /** A typedef of a function type is not handled and writes nothing. */
  lemma FunctionTypedefExample(level: int)
    ensures Text(Typedef(Here, Some("handler"), Function(Here, None, Int, [])), NotTypedef, level) == ""
  {
    TypedefLines(Typedef(Here, Some("handler"), Function(Here, None, Int, [])), level);
  }

  /** `int *name(void)`: a pointer return type moves the `*` onto the
      name. */
  lemma PointerReturnExample(name: string)
    ensures Text(Function(Here, Some(name), Pointer(None, Int), [VoidArg]), NotTypedef, 0)
      == "int *" + name + "()\n\n"
  {
    var f := Function(Here, Some(name), Pointer(None, Int), [VoidArg]);
    assert Indentation(0) == "";
    PointerSpelling(None, Int, name);
    assert ParamsText(f, 0) == "";
    assert Text(f, NotTypedef, 0) == "" + ("int" + " ") + ("*" + name + "(") + "" + ")\n\n";
    PointerReturnLine(name);
  }

  lemma PointerReturnLine(name: string)
    ensures "" + ("int" + " ") + ("*" + name + "(") + "" + ")\n\n" == "int *" + name + "()\n\n"
  {
  }

  /* ---------------------------------------------------------------------
     A whole header.
     --------------------------------------------------------------------- */

  const PointH: Header := Header("point.h", "point.h")
  const Point: Node := Typedef(Here, Some("Point"), Struct(Here, None, false, TwoInts("x", "y")))
  const Foo: Node := Function(Here, Some("foo"), Primitive(Void), [VoidArg])
  const Edge: Node := Typedef(Some(Location(Some("include/graph.h"))), Some("edge"), Int)

  const Sample: seq<Node> := [Point, Edge, Foo]

  /** Three items of which the middle one belongs to another header. */
  predicate OwnForeignOwn(p: Node, e: Node, f: Node, h: Header) {
    && Located(p) && Located(e) && Located(f)
    && Owned(p, h) && !Owned(e, h) && Owned(f, h)
    && Renderable(p) && Renderable(f)
  }

  lemma OwnForeignOwnText(p: Node, e: Node, f: Node, h: Header)
    requires OwnForeignOwn(p, e, f, h)
    ensures RenderableItems([p, e, f], h)
    ensures ItemsText([p, e, f], h, 1) == Text(p, NotTypedef, 1) + Text(f, NotTypedef, 1)
  {
    assert [p, e, f][1..] == [e, f] && [e, f][1..] == [f] && [f][1..] == [];
    assert RenderableItems([p, e, f], h);
    assert ItemsText([f], h, 1) == Text(f, NotTypedef, 1) + ItemsText([], h, 1);
    assert ItemsText([e, f], h, 1) == ItemsText([f], h, 1);
  }

  lemma OwnForeignOwnOrigins(p: Node, e: Node, f: Node, h: Header)
    requires OwnForeignOwn(p, e, f, h)
    ensures forall i | 0 <= i < 3 :: Located([p, e, f][i])
    ensures ItemsOrigins([p, e, f], h) == Origins(p, h) + (OriginOf(e.loc, h) + Origins(f, h))
  {
    assert [p, e, f][1..] == [e, f] && [e, f][1..] == [f] && [f][1..] == [];
    assert ItemsOrigins([f], h) == Origins(f, h) + ItemsOrigins([], h);
    assert ItemsOrigins([e, f], h) == OriginOf(e.loc, h) + ItemsOrigins([f], h);
  }

  /** Only the header's own items are written, in input order, and the
      foreign item is the only source of an import. */
  lemma SampleItemsAndOrigins()
    ensures RenderableItems(Sample, PointH)
    ensures ItemsText(Sample, PointH, 1) == Text(Point, NotTypedef, 1) + Text(Foo, NotTypedef, 1)
    ensures ItemsOrigins(Sample, PointH) == {"_grap"}
  {
    AnonymousStructExample("Point", "x", "y", 1);
    assert Renderable(Foo);
    assert OwnForeignOwn(Point, Edge, Foo, PointH);
    OwnForeignOwnText(Point, Edge, Foo, PointH);
    OwnForeignOwnOrigins(Point, Edge, Foo, PointH);
    PointOrigins();
    assert Origins(Foo, PointH) == {};
    ImportModuleExample();
    assert OriginOf(Edge.loc, PointH) == {"_grap"};
  }

  /** Every part of `Point` is located in the header itself. */
  lemma PointOrigins()
    ensures Origins(Point, PointH) == {}
  {
    var st := Point.typ;
    assert FieldsOrigins(st, 2, PointH) == {};
    assert Origins(st.fields[1], PointH) == {};
    assert FieldsOrigins(st, 1, PointH) == {};
    assert Origins(st.fields[0], PointH) == {};
    assert FieldsOrigins(st, 0, PointH) == {};
    assert Origins(st, PointH) == {};
  }

  /** The two own items at the extern block's level. */
  lemma SampleItems()
    ensures Text(Point, NotTypedef, 1)
      == "    " + ("ctypedef struct " + "Point" + ":\n") + (("        " + "int " + "x" + "\n") + ("        " + "int " + "y" + "\n")) + "\n"
    ensures Text(Foo, NotTypedef, 1) == "    " + "void " + "foo" + "()\n\n"
  {
    AnonymousStructExample("Point", "x", "y", 1);
    VoidParameterExample("foo", 1);
    assert Indentation(1) == "    " && Indentation(2) == "        ";
  }

  /** A header with a typedef'd struct and a function, and an item of
      another header: the foreign item is only imported, the import
      section ends in four blank lines, and the own items follow the
      extern line in input order. */
  lemma RenderExample()
    ensures RenderableItems(Sample, PointH)
    ensures Render(Sample, PointH)
      == CodeHeader + (StarLine("_grap") + "\n\n\n\n" + "\n\n")
        + (Opener(PointH) + (Text(Point, NotTypedef, 1) + Text(Foo, NotTypedef, 1)))
  {
    SampleItemsAndOrigins();
    RenderOneImport(Sample, PointH, "_grap");
  }
}
