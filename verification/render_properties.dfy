/** Properties of the extern renderer that relate several calls or pin down
    the text it produces: the import block a render emits, the fate of
    items from other headers, the line structure of struct/union/enum
    declarations, the parameter list of functions, and worked examples. */
module RenderProperties {
  import opened Options
  import opened Strings
  import opened Sorting
  import opened CodeBuilder
  import opened CAst
  import opened Declarators
  import opened Renderer

  /* ---------------------------------------------------------------------
     Imports.
     --------------------------------------------------------------------- */

  /** Registering a star import a second time changes nothing. */
  lemma StarImportIdempotent(c: Code, mod: string)
    ensures AddCimportFrom(AddCimportFrom(c, mod, "*", None), mod, "*", None) == AddCimportFrom(c, mod, "*", None)
  {
  }

  function StarLine(mod: string): string {
    "from " + mod + " cimport *"
  }

  /** The tagged lines of a cimport-from section holding only star imports. */
  function StarImportLines(mods: seq<string>): (r: seq<ImportLine>)
    ensures |r| == |mods|
  {
    seq(|mods|, i requires 0 <= i < |mods| => Entry(CimportFromSection, mods[i], StarLine(mods[i])))
  }

  function StarTexts(mods: seq<string>): (r: seq<string>)
    ensures |r| == |mods|
  {
    seq(|mods|, i requires 0 <= i < |mods| => StarLine(mods[i]))
  }

  /** The from-line spelling of a star import. */
  lemma StarLineSpelling(mod: string)
    ensures FromLine("cimport", mod, map["*" := {}]) == StarLine(mod)
  {
    StarClause();
    var x := "from " + mod;
    AppendAssoc(x, " ", "cimport");
    AppendAssoc(x, " " + "cimport", " ");
    AppendAssoc(x, " " + "cimport" + " ", "*");
    assert " " + "cimport" + " " + "*" == " cimport *";
  }

  /** A module importing only `*` gets the clause `*`. */
  lemma StarClause()
    ensures FromClause(map["*" := {}]) == "*"
  {
    var m: map<string, set<string>> := map["*" := {}];
    assert m.Keys == {"*"};
    SortedSingleton("*");
    assert NamePartsOf(["*"], m) == ["*"] by {
      assert NameParts("*", {}) == ["*"];
      assert ["*"][1..] == [];
    }
  }

  /** With star-only registrations the cimport-from section is one
      `from m cimport *` line per module, modules in ascending order. */
  lemma StarSection(m: FromRegistry)
    requires StarEntries(m)
    ensures FromLines(CimportFromSection, "cimport", m) == StarImportLines(SortedElements(m.Keys))
  {
    var r := FromLines(CimportFromSection, "cimport", m);
    var want := StarImportLines(SortedElements(m.Keys));
    forall i | 0 <= i < |r|
      ensures r[i] == want[i]
    {
      StarLineAt(m, i);
    }
    assert r == want;
  }

  /** The `i`-th line of a star-only cimport-from section. */
  lemma StarLineAt(m: FromRegistry, i: nat)
    requires StarEntries(m) && i < |m.Keys|
    ensures FromLines(CimportFromSection, "cimport", m)[i] == StarImportLines(SortedElements(m.Keys))[i]
  {
    var mods := SortedElements(m.Keys);
    var k := mods[i];
    assert k in m.Keys;
    assert m[k] == map["*" := {}];
    StarLineSpelling(k);
    assert FromLinesOf(CimportFromSection, "cimport", mods, m)[i] == Entry(CimportFromSection, k, StarLine(k));
  }

  /** A builder whose only imports are star cimport-froms. */
  predicate StarOnly(c: Code) {
    c.cimports == map[] && c.imports == map[] && c.importsFrom == map[] && StarEntries(c.cimportsFrom)
  }

  /** The import lines of a builder holding only star imports: one line per
      module, then the separator that follows each later section while any
      line has accumulated, which makes two separators once any module is
      registered. */
  lemma StarOnlyImportLines(c: Code)
    requires StarOnly(c)
    ensures var mods := SortedElements(c.cimportsFrom.Keys);
      ImportLines(c) == StarImportLines(mods) + (if |mods| > 0 then [Separator, Separator] else [])
  {
    var b := FromLines(CimportFromSection, "cimport", c.cimportsFrom);
    ImportLinesSections(c);
    NoFromLines(ImportFromSection, "import", c.importsFrom);
    StarSection(c.cimportsFrom);
    SecondSectionOnly(b);
  }

  /** `ImportLines` spelled out as its four sections. */
  lemma ImportLinesSections(c: Code)
    ensures ImportLines(c) ==
      SeparateIfAny(SeparateIfAny(SeparateIfAny(PlainLines(CimportSection, "cimport", c.cimports))
        + FromLines(CimportFromSection, "cimport", c.cimportsFrom))
        + PlainLines(ImportSection, "import", c.imports))
        + FromLines(ImportFromSection, "import", c.importsFrom)
  {
  }

  /** An empty registry gives no lines. */
  lemma NoFromLines(sec: Section, keyword: string, m: FromRegistry)
    requires m == map[]
    ensures FromLines(sec, keyword, m) == []
  {
    assert |m.Keys| == 0;
  }

  /** With only the second section non-empty, the two later separators
      follow it. */
  lemma SecondSectionOnly(b: seq<ImportLine>)
    ensures SeparateIfAny(SeparateIfAny(SeparateIfAny([]) + b) + []) + []
      == b + (if |b| > 0 then [Separator, Separator] else [])
  {
    assert SeparateIfAny([]) + b == b;
    if |b| > 0 {
      AppendAssoc(b, [Separator], [Separator]);
    }
  }

  /** A `'\n'` entry joined after some lines adds two newlines. */
  lemma JoinSeparator(lines: seq<string>)
    requires |lines| > 0
    ensures Join(lines + ["\n"], "\n") == Join(lines, "\n") + "\n\n"
  {
    JoinSnoc(lines, "\n", "\n");
    AppendAssoc(Join(lines, "\n"), "\n", "\n");
  }

  lemma FourNewlines()
    ensures "\n\n" + "\n\n" == "\n\n\n\n"
  {
  }

  /** Two `'\n'` entries joined after some lines add four newlines. */
  lemma JoinTwoSeparators(lines: seq<string>)
    requires |lines| > 0
    ensures Join(lines + ["\n"] + ["\n"], "\n") == Join(lines, "\n") + "\n\n\n\n"
  {
    var j := Join(lines, "\n");
    JoinSeparator(lines);
    JoinSeparator(lines + ["\n"]);
    AppendAssoc(j, "\n\n", "\n\n");
    FourNewlines();
  }

  /** The texts of the star lines and the two separators after them. */
  lemma StarLineTexts(mods: seq<string>)
    ensures LineTexts(StarImportLines(mods) + [Separator, Separator]) == StarTexts(mods) + ["\n"] + ["\n"]
  {
    var lines := StarImportLines(mods) + [Separator, Separator];
    var want := StarTexts(mods) + ["\n"] + ["\n"];
    forall i | 0 <= i < |lines|
      ensures LineTexts(lines)[i] == want[i]
    {
      if i < |mods| {
        assert lines[i] == Entry(CimportFromSection, mods[i], StarLine(mods[i]));
      }
    }
  }

  /** The import text of a builder holding only star imports: the star
      lines joined by newlines, then four newlines (the join's own plus the
      two separator entries). */
  lemma StarOnlyImportText(c: Code)
    requires StarOnly(c)
    ensures var mods := SortedElements(c.cimportsFrom.Keys);
      GenImports(c) == if |mods| == 0 then "" else Join(StarTexts(mods), "\n") + "\n\n\n\n"
  {
    var mods := SortedElements(c.cimportsFrom.Keys);
    StarOnlyImportLines(c);
    if |mods| > 0 {
      StarLineTexts(mods);
      JoinTwoSeparators(StarTexts(mods));
    } else {
      assert LineTexts(ImportLines(c)) == [];
    }
  }

  /** The whole file a render produces: header comment, the star imports
      (with the blank lines the separators and `code()` add) when any
      foreign module was met, then the extern block. */
  lemma RenderText(items: seq<Node>, h: Header)
    requires RenderableItems(items, h)
    ensures var mods := SortedElements(ItemsOrigins(items, h));
      Render(items, h) ==
        CodeHeader
          + (if |mods| == 0 then "" else Join(StarTexts(mods), "\n") + "\n\n\n\n" + "\n\n")
          + (Opener(h) + ItemsText(items, h, 1))
  {
    var c := RenderCode(items, h);
    StarOnlyImportText(c);
    RenderIsOutput(items, h);
    AssembleSpelled(GenImports(c), c.body);
  }

  /** `render` returns `code()` of the builder after its walk. */
  lemma RenderIsOutput(items: seq<Node>, h: Header)
    requires RenderableItems(items, h)
    ensures Render(items, h) == Assemble(GenImports(RenderCode(items, h)), RenderCode(items, h).body)
  {
  }

  /** `code()`'s assembly, grouped as header, import block, body. */
  lemma AssembleSpelled(imports: string, body: string)
    ensures Assemble(imports, body) == CodeHeader + (if imports == "" then "" else imports + "\n\n") + body
  {
    if imports != "" {
      AppendAssoc(CodeHeader, imports, "\n\n");
    } else {
      assert CodeHeader + "" == CodeHeader;
    }
  }

  /** With exactly one foreign module met, the file is the header comment,
      that module's star import followed by six newlines, and the extern
      block. */
  lemma RenderOneImport(items: seq<Node>, h: Header, mod: string)
    requires RenderableItems(items, h)
    ensures ItemsOrigins(items, h) == {mod} ==>
      Render(items, h) == CodeHeader + (StarLine(mod) + "\n\n\n\n" + "\n\n") + (Opener(h) + ItemsText(items, h, 1))
  {
    if ItemsOrigins(items, h) == {mod} {
      SortedSingleton(mod);
      assert Join(StarTexts([mod]), "\n") == StarLine(mod) by {
        assert StarTexts([mod]) == [StarLine(mod)];
      }
      RenderText(items, h);
    }
  }

  /* ---------------------------------------------------------------------
     Items of other headers.
     --------------------------------------------------------------------- */

  /** The text of items is the text of each part in turn. */
  lemma {:induction false} ItemsTextConcat(a: seq<Node>, b: seq<Node>, h: Header, level: int)
    requires RenderableItems(a, h) && RenderableItems(b, h)
    ensures RenderableItems(a + b, h)
    ensures ItemsText(a + b, h, level) == ItemsText(a, h, level) + ItemsText(b, h, level)
    decreases |a|
  {
    if |a| == 0 {
      assert a + b == b;
    } else {
      assert (a + b)[1..] == a[1..] + b;
      ItemsTextConcat(a[1..], b, h, level);
      if Owned(a[0], h) {
        AppendAssoc(Text(a[0], NotTypedef, level), ItemsText(a[1..], h, level), ItemsText(b, h, level));
      }
    }
  }

  /** An item of another header contributes nothing to the extern block:
      removing it leaves the text unchanged. */
  lemma ForeignItemNotRendered(items: seq<Node>, h: Header, i: nat, level: int)
    requires RenderableItems(items, h) && i < |items| && !Owned(items[i], h)
    ensures RenderableItems(items[..i] + items[i + 1..], h)
    ensures ItemsText(items, h, level) == ItemsText(items[..i] + items[i + 1..], h, level)
  {
    assert items == items[..i] + ([items[i]] + items[i + 1..]);
    ItemsTextConcat([items[i]], items[i + 1..], h, level);
    ItemsTextConcat(items[..i], [items[i]] + items[i + 1..], h, level);
    ItemsTextConcat(items[..i], items[i + 1..], h, level);
    assert ItemsText([items[i]], h, level) == "";
    assert [items[i]] + items[i + 1..] == [items[i]] + items[i + 1..];
  }

  /** An item naming another header registers that header's module. */
  lemma {:induction false} ForeignItemImported(items: seq<Node>, h: Header, i: nat)
    requires forall j | 0 <= j < |items| :: Located(items[j])
    requires i < |items| && Foreign(LocOf(items[i]), h)
    ensures ImportModule(LocOf(items[i]).value.headerName.value) in ItemsOrigins(items, h)
    decreases i
  {
    var rest := ItemsOrigins(items[1..], h);
    if i == 0 {
      assert !Owned(items[0], h);
      assert ItemsOrigins(items, h) == OriginOf(items[0].loc, h) + rest;
    } else {
      assert items[1..][i - 1] == items[i];
      ForeignItemImported(items[1..], h, i - 1);
      assert rest <= ItemsOrigins(items, h);
    }
  }

  /** A name `ImportModule` can produce. */
  predicate ModuleName(m: string) {
    |m| > 0 && m[0] == '_' && m[|m| - 1] != '.' && m[|m| - 1] != 'h' && '/' !in m
  }

  predicate ModuleNames(mods: set<string>) {
    forall m | m in mods :: ModuleName(m)
  }

  lemma OriginOfIsModuleName(loc: Option<Location>, h: Header)
    ensures ModuleNames(OriginOf(loc, h))
  {
  }

  /** Everything a visit registers is a module name derived from a header. */
  lemma {:induction false} OriginsAreModuleNames(n: Node, h: Header)
    ensures ModuleNames(Origins(n, h))
    decreases n, 2
  {
    OriginOfIsModuleName(LocOf(n), h);
    InnerOriginsAreModuleNames(n, h);
  }

  lemma {:induction false} InnerOriginsAreModuleNames(n: Node, h: Header)
    ensures ModuleNames(InnerOrigins(n, h))
    decreases n, 1
  {
    match n
    case Typedef(_, _, t) =>
      OriginsAreModuleNames(t, h);
    case Struct(_, _, _, _) =>
      FieldsOriginsAreModuleNames(n, 0, h);
    case Union(_, _, _, _) =>
      FieldsOriginsAreModuleNames(n, 0, h);
    case Enum(_, _, _, _) =>
      FieldsOriginsAreModuleNames(n, 0, h);
    case Function(_, _, _, _) =>
      ArgsOriginsAreModuleNames(n, 0, h);
    case Pointer(_, t) =>
      OriginsAreModuleNames(t, h);
    case Array(_, t, _) =>
      OriginsAreModuleNames(t, h);
    case _ =>
  }

  lemma {:induction false} FieldsOriginsAreModuleNames(n: Node, i: nat, h: Header)
    requires IsComposite(n) && i <= |n.fields|
    ensures ModuleNames(FieldsOrigins(n, i, h))
    decreases n, 0, |n.fields| - i
  {
    if i < |n.fields| {
      OriginsAreModuleNames(n.fields[i], h);
      FieldsOriginsAreModuleNames(n, i + 1, h);
    }
  }

  lemma {:induction false} ArgsOriginsAreModuleNames(n: Node, i: nat, h: Header)
    requires n.Function? && i <= |n.arguments|
    ensures ModuleNames(ArgsOrigins(n, i, h))
    decreases n, 0, |n.arguments| - i
  {
    if i < |n.arguments| {
      OriginsAreModuleNames(n.arguments[i], h);
      ArgsOriginsAreModuleNames(n, i + 1, h);
    }
  }

  /** Every import line of a render names a module derived from a header. */
  lemma {:induction false} ItemsOriginsAreModuleNames(items: seq<Node>, h: Header)
    requires forall j | 0 <= j < |items| :: Located(items[j])
    ensures ModuleNames(ItemsOrigins(items, h))
    decreases |items|
  {
    if |items| > 0 {
      OriginsAreModuleNames(items[0], h);
      OriginOfIsModuleName(items[0].loc, h);
      ItemsOriginsAreModuleNames(items[1..], h);
    }
  }

  /* ---------------------------------------------------------------------
     Struct/union/enum declarations: one line per member, one blank line.
     --------------------------------------------------------------------- */

  predicate EndsWithNewline(s: string) {
    |s| > 0 && s[|s| - 1] == '\n'
  }

  /** Appending text that ends a line ends a line. */
  lemma EndsWithNewlineAppend(a: string, b: string)
    requires EndsWithNewline(b)
    ensures EndsWithNewline(a + b)
  {
    assert (a + b)[|a + b| - 1] == b[|b| - 1];
  }

  lemma OpenerNewlines()
    ensures Count("\n", '\n') == 1 && Count(":\n", '\n') == 1
  {
    assert ":\n"[1..] == "\n";
    assert "\n"[1..] == "";
  }

  lemma IndentationHasNoNewline(level: int)
    ensures Count(Indentation(level), '\n') == 0
  {
    var ind := Indentation(level);
    assert forall i | 0 <= i < |ind| :: ind[i] != '\n';
    CountAbsent(ind, '\n');
  }

  /** A member that prints exactly one line of its own: a field whose
      spelling holds no line break, or such an enum value. */
  predicate LineMember(f: Node) {
    || (f.Field? && (NeedsName(f.typ) ==> f.identifier.Some?) && '\n' !in DeclString(TypedName(f.typ, f.identifier)))
    || (f.EnumValue? && '\n' !in Show(f.identifier))
  }

  /** The one line a line member spells: the field's type and declarator,
      or the enum value's name. */
  function MemberSpelling(f: Node): string
    requires LineMember(f)
  {
    if f.Field? then DeclString(TypedName(f.typ, f.identifier)) else Show(f.identifier)
  }

  /** Each of `lines` on a line of its own at `level`, in order. */
  function IndentedLines(lines: seq<string>, level: int): string
    decreases |lines|
  {
    if |lines| == 0 then "" else Indentation(level) + (lines[0] + "\n") + IndentedLines(lines[1..], level)
  }

  /** The spellings of the members from position `i` on, in declared
      order. */
  function MemberSpellings(n: Node, i: nat): seq<string>
    requires IsComposite(n) && i <= |n.fields|
    requires forall j | 0 <= j < |n.fields| :: LineMember(n.fields[j])
    decreases |n.fields| - i
  {
    if i == |n.fields| then [] else [MemberSpelling(n.fields[i])] + MemberSpellings(n, i + 1)
  }

  /** A line member is indented text ending in its only line break. */
  lemma MemberLine(f: Node, level: int)
    requires LineMember(f)
    ensures Renderable(f)
    ensures Text(f, NotTypedef, level) == Indentation(level) + (MemberSpelling(f) + "\n")
    ensures Count(Text(f, NotTypedef, level), '\n') == 1
    ensures EndsWithNewline(Text(f, NotTypedef, level))
  {
    var line := MemberSpelling(f);
    IndentationHasNoNewline(level);
    CountAbsent(line, '\n');
    CountConcat(line, "\n", '\n');
    CountConcat(Indentation(level), line + "\n", '\n');
  }

  /** Every member of a defined aggregate made of line members can be
      rendered. */
  lemma MembersRenderable(n: Node)
    requires IsComposite(n)
    requires !n.isOpaque ==> forall j | 0 <= j < |n.fields| :: LineMember(n.fields[j])
    ensures Renderable(n)
  {
    forall j | 0 <= j < |n.fields| && !n.isOpaque
      ensures Renderable(n.fields[j])
    {
      MemberLine(n.fields[j], 0);
    }
  }

  /** The member lines from position `i` on: one line per member, in
      declared order, each at `level`. */
  lemma {:induction false} MemberLines(n: Node, i: nat, level: int)
    requires IsComposite(n) && !n.isOpaque && i <= |n.fields|
    requires forall j | 0 <= j < |n.fields| :: LineMember(n.fields[j])
    ensures Renderable(n)
    ensures FieldsText(n, i, level) == IndentedLines(MemberSpellings(n, i), level)
    ensures Count(FieldsText(n, i, level), '\n') == |n.fields| - i
    ensures i < |n.fields| ==> EndsWithNewline(FieldsText(n, i, level))
    decreases |n.fields| - i
  {
    MembersRenderable(n);
    if i < |n.fields| {
      var t := Text(n.fields[i], NotTypedef, level);
      var rest := FieldsText(n, i + 1, level);
      MemberLine(n.fields[i], level);
      MemberLines(n, i + 1, level);
      MemberLinesStep(n, i, level);
      CountConcat(t, rest, '\n');
      if i + 1 == |n.fields| {
        assert t + rest == t;
      } else {
        assert (t + rest)[|t + rest| - 1] == rest[|rest| - 1];
      }
    }
  }

  /** One member's line followed by the lines of the members after it. */
  lemma MemberLinesStep(n: Node, i: nat, level: int)
    requires IsComposite(n) && !n.isOpaque && i < |n.fields|
    requires forall j | 0 <= j < |n.fields| :: LineMember(n.fields[j])
    requires Renderable(n)
    requires Text(n.fields[i], NotTypedef, level) == Indentation(level) + (MemberSpelling(n.fields[i]) + "\n")
    requires FieldsText(n, i + 1, level) == IndentedLines(MemberSpellings(n, i + 1), level)
    ensures FieldsText(n, i, level) == IndentedLines(MemberSpellings(n, i), level)
  {
    var sp := MemberSpellings(n, i);
    assert sp == [MemberSpelling(n.fields[i])] + MemberSpellings(n, i + 1);
    assert sp[1..] == MemberSpellings(n, i + 1);
  }

  /** The head and alias line hold no line break of their own when the
      names do not. */
  lemma SpellingLines(n: Node, enc: Enclosing)
    requires IsComposite(n)
    requires '\n' !in Show(n.identifier) && (enc.UnderTypedef? ==> '\n' !in Show(enc.alias))
    ensures '\n' !in SpellingOf(n, enc).head
    ensures SpellingOf(n, enc).aliasLine.Some? ==>
      Count(SpellingOf(n, enc).aliasLine.value, '\n') == 1 && EndsWithNewline(SpellingOf(n, enc).aliasLine.value)
  {
    var s := SpellingOf(n, enc);
    assert '\n' !in Keyword(n);
    if s.aliasLine.Some? {
      var body := "ctypedef " + Show(n.identifier) + " " + Show(enc.alias);
      assert s.aliasLine.value == body + "\n";
      CountAbsent(body, '\n');
      CountConcat(body, "\n", '\n');
    }
  }

  /** The head line of a declaration: the indentation, the head, and `:`
      exactly when the aggregate is defined. */
  function HeadLine(head: string, n: Node, level: int): string
    requires IsComposite(n)
  {
    Indentation(level) + head + (if n.isOpaque then "\n" else ":\n")
  }

  /** The members' lines of a defined aggregate, one level deeper than its
      head; nothing when it is opaque. */
  function MembersText(n: Node, level: int): string
    requires IsComposite(n)
    requires !n.isOpaque ==> forall j | 0 <= j < |n.fields| :: LineMember(n.fields[j])
  {
    if n.isOpaque then "" else IndentedLines(MemberSpellings(n, 0), level + 1)
  }

  /** The declaration without its alias and blank line: the head line, then
      one line per member when defined. */
  lemma BlockLines(head: string, n: Node, level: int)
    requires IsComposite(n) && '\n' !in head
    requires !n.isOpaque ==> forall j | 0 <= j < |n.fields| :: LineMember(n.fields[j])
    ensures Renderable(n)
    ensures BlockText(head, n, level) == HeadLine(head, n, level) + MembersText(n, level)
    ensures |HeadLine(head, n, level)| <= |BlockText(head, n, level)|
    ensures BlockText(head, n, level)[..|HeadLine(head, n, level)|] == HeadLine(head, n, level)
    ensures Count(BlockText(head, n, level), '\n') == 1 + (if n.isOpaque then 0 else |n.fields|)
    ensures EndsWithNewline(BlockText(head, n, level))
  {
    MembersRenderable(n);
    var ind := Indentation(level);
    var opener := if n.isOpaque then "\n" else ":\n";
    var line := HeadLine(head, n, level);
    var block := BlockText(head, n, level);
    IndentationHasNoNewline(level);
    OpenerNewlines();
    CountAbsent(head, '\n');
    CountConcat(head, opener, '\n');
    CountConcat(ind, head + opener, '\n');
    AppendAssoc(ind, head, opener);
    if n.isOpaque {
      assert block == line;
      assert line + MembersText(n, level) == line;
    } else {
      MemberLines(n, 0, level + 1);
      var members := FieldsText(n, 0, level + 1);
      assert block == line + members;
      CountConcat(line, members, '\n');
      if |n.fields| == 0 {
        assert block == line;
      } else {
        EndsWithNewlineAppend(line, members);
      }
    }
  }

  /** The shape of a struct/union/enum declaration: the head line, with `:`
      exactly when the aggregate is defined; one line per member; the alias
      line when tag and typedef names differ; and one blank line. */
  lemma CompositeLines(n: Node, enc: Enclosing, level: int)
    requires IsComposite(n)
    requires !n.isOpaque ==> forall j | 0 <= j < |n.fields| :: LineMember(n.fields[j])
    requires '\n' !in Show(n.identifier) && (enc.UnderTypedef? ==> '\n' !in Show(enc.alias))
    ensures Renderable(n)
    ensures var line := HeadLine(SpellingOf(n, enc).head, n, level);
      |line| <= |CompositeText(n, enc, level)| && CompositeText(n, enc, level)[..|line|] == line
    ensures Count(CompositeText(n, enc, level), '\n') ==
      2 + (if n.isOpaque then 0 else |n.fields|) + (if DistinctNames(n, enc) then 1 else 0)
    ensures var t := CompositeText(n, enc, level); |t| >= 2 && t[|t| - 2..] == "\n\n"
    ensures var s := SpellingOf(n, enc);
      CompositeText(n, enc, level) == HeadLine(s.head, n, level) + MembersText(n, level) + AliasText(s, level) + "\n"
  {
    var s := SpellingOf(n, enc);
    SpellingLines(n, enc);
    BlockLines(s.head, n, level);
    var block := BlockText(s.head, n, level);
    CloseDeclaration(block, s.aliasLine, level, HeadLine(s.head, n, level));
    CompositeIsClosed(n, enc, level);
    ClosedSpelled(HeadLine(s.head, n, level), MembersText(n, level), s, level);
  }

  /** Closing a block is appending the alias text and a newline. */
  lemma ClosedSpelled(line: string, members: string, s: Spelling, level: int)
    ensures Closed(line + members, s.aliasLine, level) == line + members + AliasText(s, level) + "\n"
  {
    if s.aliasLine.None? {
      assert line + members + "" == line + members;
    }
  }

  /** The alias line at the declaration's level, if the spelling has one. */
  function AliasText(s: Spelling, level: int): string {
    if s.aliasLine.Some? then Indentation(level) + s.aliasLine.value else ""
  }

  /** A declaration is its block closed with its spelling's alias line. */
  lemma CompositeIsClosed(n: Node, enc: Enclosing, level: int)
    requires IsComposite(n) && Renderable(n)
    ensures CompositeText(n, enc, level) ==
      Closed(BlockText(SpellingOf(n, enc).head, n, level), SpellingOf(n, enc).aliasLine, level)
  {
  }

  /** A declaration block followed by the optional alias line and the
      final blank line. */
  function Closed(block: string, alias: Option<string>, level: int): string {
    (if alias.Some? then block + (Indentation(level) + alias.value) else block) + "\n"
  }

  /** Closing a block adds the alias line, if any, and one blank line, and
      keeps what the block starts with. */
  lemma CloseDeclaration(block: string, alias: Option<string>, level: int, line: string)
    requires EndsWithNewline(block) && |line| <= |block| && block[..|line|] == line
    requires alias.Some? ==> Count(alias.value, '\n') == 1 && EndsWithNewline(alias.value)
    ensures Count(Closed(block, alias, level), '\n') == Count(block, '\n') + (if alias.Some? then 1 else 0) + 1
    ensures var t := Closed(block, alias, level); |t| >= 2 && t[|t| - 2..] == "\n\n"
    ensures Closed(block, alias, level)[..|line|] == line
  {
    var aliased := if alias.Some? then block + (Indentation(level) + alias.value) else block;
    AliasLines(block, alias, level);
    assert aliased[..|line|] == block[..|line|];
    BlankLineAfter(aliased, line);
  }

  /** One more newline after text that ends a line leaves a blank line,
      adds one line and keeps the start. */
  lemma BlankLineAfter(x: string, line: string)
    requires EndsWithNewline(x) && |line| <= |x| && x[..|line|] == line
    ensures Count(x + "\n", '\n') == Count(x, '\n') + 1
    ensures |x + "\n"| >= 2 && (x + "\n")[|x + "\n"| - 2..] == "\n\n"
    ensures (x + "\n")[..|line|] == line
  {
    var t := x + "\n";
    OpenerNewlines();
    CountConcat(x, "\n", '\n');
    assert t[..|line|] == x[..|line|];
    assert t[|t| - 2..] == [x[|x| - 1], '\n'];
  }

  /** The optional alias line adds one line. */
  lemma AliasLines(block: string, alias: Option<string>, level: int)
    requires EndsWithNewline(block)
    requires alias.Some? ==> Count(alias.value, '\n') == 1 && EndsWithNewline(alias.value)
    ensures var aliased := if alias.Some? then block + (Indentation(level) + alias.value) else block;
      && Count(aliased, '\n') == Count(block, '\n') + (if alias.Some? then 1 else 0)
      && EndsWithNewline(aliased)
      && |block| <= |aliased| && aliased[..|block|] == block
  {
    if alias.Some? {
      IndentationHasNoNewline(level);
      CountConcat(Indentation(level), alias.value, '\n');
      CountConcat(block, Indentation(level) + alias.value, '\n');
      EndsWithNewlineAppend(Indentation(level), alias.value);
      EndsWithNewlineAppend(block, Indentation(level) + alias.value);
    }
  }

  /* ---------------------------------------------------------------------
     Typedefs.
     --------------------------------------------------------------------- */

  /** A typedef of a typedef name or of a primitive is the one line
      `ctypedef <base> <alias>` and a blank line; of a struct, union or
      enum, that type's declaration under the alias; of a pointer or
      array, `ctypedef ` and the alias around the visit of the type; of
      anything else, nothing. */
  lemma TypedefLines(n: Node, level: int)
    requires n.Typedef? && Renderable(n)
    ensures n.typ.Typedef? || n.typ.Primitive? ==>
      Text(n, NotTypedef, level) == Indentation(level) + ("ctypedef " + BaseName(n.typ) + " " + Show(n.identifier) + "\n\n")
    ensures IsComposite(n.typ) ==> Text(n, NotTypedef, level) == CompositeText(n.typ, UnderTypedef(n.identifier), level)
    ensures n.typ.Pointer? || n.typ.Array? ==>
      Text(n, NotTypedef, level) == Indentation(level) + "ctypedef " + Text(n.typ, NotTypedef, level) + (" " + Show(n.identifier) + "\n\n")
    ensures !(IsComposite(n.typ) || n.typ.Pointer? || n.typ.Array? || n.typ.Typedef? || n.typ.Primitive?) ==>
      Text(n, NotTypedef, level) == ""
  {
    if IsComposite(n.typ) {
      var t := n.typ;
      assert Text(t, UnderTypedef(n.identifier), level) == CompositeText(t, UnderTypedef(n.identifier), level);
    }
  }

  /* ---------------------------------------------------------------------
     Functions.
     --------------------------------------------------------------------- */

  /** The parameter list: a placeholder for no arguments, nothing for a
      lone `void`, and otherwise the arguments in order with exactly one
      `, ` between neighbours, so one comma fewer than arguments beyond
      those the arguments spell themselves. */
  lemma ParameterList(n: Node, level: int)
    requires n.Function? && Renderable(n) && ReturnHandled(n.resType)
    ensures |n.arguments| == 0 ==> ParamsText(n, level) == Undefined
    ensures |n.arguments| == 1 && IsVoidArgument(n.arguments[0]) ==> ParamsText(n, level) == ""
    ensures VisitsArguments(n) ==>
      Count(ParamsText(n, level), ',') == SumCount(ArgTexts(n, 0, level), ',') + |n.arguments| - 1
  {
    if VisitsArguments(n) {
      JoinCount(ArgTexts(n, 0, level), ", ", ',');
      assert Count(", ", ',') == 1;
    }
  }

  /** A return type the renderer does not handle leaves only the
      placeholder line: no name and no parameter list. */
  lemma UnsupportedReturn(n: Node, level: int)
    requires n.Function? && Renderable(n) && !ReturnHandled(n.resType)
    ensures FunctionText(n, level) == Indentation(level) + "__UNDEFINED__\n\n"
    ensures Count(FunctionText(n, level), '(') == 0
  {
    var ind := Indentation(level);
    assert forall i | 0 <= i < |ind| :: ind[i] != '(';
    CountAbsent(ind, '(');
    CountAbsent(Undefined + "\n\n", '(');
    CountConcat(ind, Undefined + "\n\n", '(');
  }
}
