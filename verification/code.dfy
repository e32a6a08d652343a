/** The text builder of the renderer (class `Code`): a body buffer, an indent
    level, and four import registries whose contents are emitted, sorted,
    ahead of the body when the text is finished. The mutable object becomes
    an immutable record that every operation returns updated. */
module CodeBuilder {
  import opened Options
  import opened Strings
  import opened Sorting

  /** Fixed comment every generated file starts with. */
  const CodeHeader: string := "# This code was automatically generated by CWrap.\n\n"

  /** One indentation unit. */
  const Indentor: string := "    "

  /** module -> aliases (`cimport m as a`, `import m as a`). */
  type PlainRegistry = map<string, set<string>>

  /** module -> imported name -> aliases (`from m cimport n as a`). */
  type FromRegistry = map<string, map<string, set<string>>>

  datatype Code = Code(
    body: string,
    level: int,
    cimports: PlainRegistry,
    cimportsFrom: FromRegistry,
    imports: PlainRegistry,
    importsFrom: FromRegistry)

  /** A fresh builder: empty body, level 0, no imports. */
  const Empty: Code := Code("", 0, map[], map[], map[], map[])

  /** Same registries: only body and level may differ. */
  predicate SameImports(a: Code, b: Code) {
    && a.cimports == b.cimports
    && a.cimportsFrom == b.cimportsFrom
    && a.imports == b.imports
    && a.importsFrom == b.importsFrom
  }

  /* ---------------------------------------------------------------------
     Indentation and writing.
     --------------------------------------------------------------------- */

  function Max0(n: int): nat {
    if n > 0 then n else 0
  }

  /** `'    ' * level`: Python repeats a string zero times for a level that
      is zero or negative. */
  function Indentation(level: int): (r: string)
    ensures |r| == 4 * Max0(level)
    ensures forall i | 0 <= i < |r| :: r[i] == ' '
    decreases Max0(level)
  {
    if level <= 0 then "" else Indentor + Indentation(level - 1)
  }

  /** `indent(n)`: no bound is enforced. */
  function Indent(c: Code, n: int): (r: Code)
    ensures Dedent(r, n) == c
  {
    c.(level := c.level + n)
  }

  /** `dedent(n)`: no clamping at zero; a later write at a negative level
      simply gets no indentation. */
  function Dedent(c: Code, n: int): (r: Code)
    ensures r.body == c.body && SameImports(r, c)
    ensures r.level == c.level - n
    ensures r.level < c.level <==> n > 0
  {
    c.(level := c.level - n)
  }

  /** `write_i(text)`: the text after exactly four spaces per level. */
  function WriteI(c: Code, text: string): (r: Code)
    ensures r.level == c.level && SameImports(r, c)
    ensures r.body == c.body + seq(4 * Max0(c.level), _ => ' ') + text
  {
    c.(body := c.body + Indentation(c.level) + text)
  }

  /** `write(text)`: the text with no indentation. */
  function Write(c: Code, text: string): (r: Code)
    ensures r.level == c.level && SameImports(r, c)
    ensures |r.body| == |c.body| + |text| && r.body[..|c.body|] == c.body && r.body[|c.body|..] == text
  {
    c.(body := c.body + text)
  }

  /* ---------------------------------------------------------------------
     Import registration.
     --------------------------------------------------------------------- */

  /** `r` is `m` after `m[mod].add(alias)` on a `defaultdict(set)`: the
      module becomes a key, the alias joins its earlier aliases, and every
      other module keeps its aliases. */
  predicate PlainAdded(m: PlainRegistry, r: PlainRegistry, mod: string, alias: string) {
    && r.Keys == m.Keys + {mod}
    && r[mod] == (if mod in m then m[mod] else {}) + {alias}
    && forall k | k in m && k != mod :: r[k] == m[k]
  }

  /** Add `alias` to the alias set of `mod`. */
  function AddPlain(m: PlainRegistry, mod: string, alias: string): (r: PlainRegistry)
    ensures PlainAdded(m, r, mod, alias)
    ensures alias in r[mod]
  {
    m[mod := (if mod in m then m[mod] else {}) + {alias}]
  }

  /** `r` is `m` after `m[mod][name]`, followed by `.add(alias)` when an
      alias is given, on nested `defaultdict`s: the module and the name
      become keys, the alias joins the name's earlier aliases, and every
      other module and every other name of `mod` keep their entries. */
  predicate FromAdded(m: FromRegistry, r: FromRegistry, mod: string, name: string, alias: Option<string>) {
    && r.Keys == m.Keys + {mod}
    && r[mod].Keys == (if mod in m then m[mod].Keys else {}) + {name}
    && r[mod][name] == (if mod in m && name in m[mod] then m[mod][name] else {}) + (if alias.Some? then {alias.value} else {})
    && (mod in m ==> forall n | n in m[mod] && n != name :: r[mod][n] == m[mod][n])
    && forall k | k in m && k != mod :: r[k] == m[k]
  }

  /** Record `name` under `mod`, adding `alias` to its aliases when one is
      given; without an alias the name is only made present (the
      `defaultdict` lookup of the source). */
  function AddFrom(m: FromRegistry, mod: string, name: string, alias: Option<string>): (r: FromRegistry)
    ensures FromAdded(m, r, mod, name, alias)
    ensures name in r[mod]
    ensures alias.Some? ==> alias.value in r[mod][name]
    ensures alias.None? && mod in m && name in m[mod] ==> r == m
  {
    var names := if mod in m then m[mod] else map[];
    var aliases := if name in names then names[name] else {};
    var added := match alias
      case Some(a) => {a}
      case None => {};
    assert alias.None? && mod in m && name in m[mod] ==> names[name := aliases + added] == names by {
      if alias.None? && mod in m && name in m[mod] {
        assert aliases + added == aliases;
      }
    }
    m[mod := names[name := aliases + added]]
  }

  /** `add_import(mod, as_name)`, aliased form. */
  function AddImport(c: Code, mod: string, alias: string): (r: Code)
    ensures r.body == c.body && r.level == c.level
    ensures r.cimports == c.cimports && r.cimportsFrom == c.cimportsFrom && r.importsFrom == c.importsFrom
    ensures PlainAdded(c.imports, r.imports, mod, alias)
  {
    c.(imports := AddPlain(c.imports, mod, alias))
  }

  /** `add_import_from(mod, name, as_name)`, aliased form. */
  function AddImportFrom(c: Code, mod: string, name: string, alias: string): (r: Code)
    ensures r.body == c.body && r.level == c.level
    ensures r.cimports == c.cimports && r.cimportsFrom == c.cimportsFrom && r.imports == c.imports
    ensures FromAdded(c.importsFrom, r.importsFrom, mod, name, Some(alias))
  {
    c.(importsFrom := AddFrom(c.importsFrom, mod, name, Some(alias)))
  }

  /** `add_cimport(mod, as_name)`, aliased form. */
  function AddCimport(c: Code, mod: string, alias: string): (r: Code)
    ensures r.body == c.body && r.level == c.level
    ensures r.cimportsFrom == c.cimportsFrom && r.imports == c.imports && r.importsFrom == c.importsFrom
    ensures PlainAdded(c.cimports, r.cimports, mod, alias)
  {
    c.(cimports := AddPlain(c.cimports, mod, alias))
  }

  /** `add_cimport_from(mod, name, as_name)`: the alias is optional; without
      one, a name already recorded leaves the builder as it was. */
  function AddCimportFrom(c: Code, mod: string, name: string, alias: Option<string>): (r: Code)
    ensures r.body == c.body && r.level == c.level
    ensures r.cimports == c.cimports && r.imports == c.imports && r.importsFrom == c.importsFrom
    ensures FromAdded(c.cimportsFrom, r.cimportsFrom, mod, name, alias)
    ensures alias.None? && mod in c.cimportsFrom && name in c.cimportsFrom[mod] ==> r == c
  {
    c.(cimportsFrom := AddFrom(c.cimportsFrom, mod, name, alias))
  }

  /* ---------------------------------------------------------------------
     Import emission (`_gen_imports`). Each emitted line is tagged with the
     section and module it belongs to; the tags do not reach the text.
     --------------------------------------------------------------------- */

  datatype Section = CimportSection | CimportFromSection | ImportSection | ImportFromSection

  /** Position of a section in the output. */
  function Rank(s: Section): nat {
    match s
    case CimportSection => 0
    case CimportFromSection => 1
    case ImportSection => 2
    case ImportFromSection => 3
  }

  /** An element of the source's `import_lines` list: an import line, or the
      `'\n'` separator entry. */
  datatype ImportLine = Entry(section: Section, mod: string, text: string) | Separator

  function LineText(l: ImportLine): string {
    match l
    case Entry(_, _, t) => t
    case Separator => "\n"
  }

  function LineTexts(lines: seq<ImportLine>): (r: seq<string>)
    ensures |r| == |lines|
    ensures forall i | 0 <= i < |lines| :: r[i] == LineText(lines[i])
  {
    seq(|lines|, i requires 0 <= i < |lines| => LineText(lines[i]))
  }

  /** Every line is an entry of section `sec`. */
  predicate AllIn(lines: seq<ImportLine>, sec: Section) {
    forall i | 0 <= i < |lines| :: lines[i].Entry? && lines[i].section == sec
  }

  /** Entries appear section by section in the fixed order. */
  predicate SectionsOrdered(lines: seq<ImportLine>) {
    forall i, j | 0 <= i < j < |lines| && lines[i].Entry? && lines[j].Entry? ::
      Rank(lines[i].section) <= Rank(lines[j].section)
  }

  /** Inside one section, entries appear in ascending module order. */
  predicate ModulesSorted(lines: seq<ImportLine>) {
    forall i, j | 0 <= i < j < |lines| && lines[i].Entry? && lines[j].Entry? && lines[i].section == lines[j].section ::
      Le(lines[i].mod, lines[j].mod)
  }

  /** The section `sec` has an entry for exactly the modules in `keys`. */
  ghost predicate Covers(lines: seq<ImportLine>, sec: Section, keys: set<string>) {
    forall k :: k in keys <==> exists i | 0 <= i < |lines| :: lines[i].Entry? && lines[i].section == sec && lines[i].mod == k
  }

  /** No entry belongs to a section after `sec`. */
  predicate UpTo(lines: seq<ImportLine>, sec: Section) {
    forall i | 0 <= i < |lines| && lines[i].Entry? :: Rank(lines[i].section) <= Rank(sec)
  }

  /** No entry belongs to section `sec`. */
  predicate NoneOf(lines: seq<ImportLine>, sec: Section) {
    forall i | 0 <= i < |lines| && lines[i].Entry? :: lines[i].section != sec
  }

  /** No line is the empty string. */
  predicate NoEmptyLine(lines: seq<ImportLine>) {
    forall i | 0 <= i < |lines| :: |LineText(lines[i])| > 0
  }

  /** `cimport m as a` for every alias of `mod` in sorted order, or
      `cimport m` when it has none. */
  function PlainModuleLines(sec: Section, keyword: string, mod: string, aliases: set<string>): (r: seq<ImportLine>)
    ensures |r| > 0 && AllIn(r, sec) && NoEmptyLine(r)
    ensures forall i | 0 <= i < |r| :: r[i].mod == mod
    ensures aliases == {} ==> r == [Entry(sec, mod, keyword + " " + mod)]
    ensures aliases != {} ==> |r| == |aliases|
    ensures aliases != {} ==> forall i | 0 <= i < |r| :: r[i].text == keyword + " " + mod + " as " + SortedElements(aliases)[i]
  {
    if aliases == {} then [Entry(sec, mod, keyword + " " + mod)]
    else
      var names := SortedElements(aliases);
      seq(|names|, i requires 0 <= i < |names| => Entry(sec, mod, keyword + " " + mod + " as " + names[i]))
  }

  function PlainLinesOf(sec: Section, keyword: string, modules: seq<string>, m: PlainRegistry): (r: seq<ImportLine>)
    requires forall i | 0 <= i < |modules| :: modules[i] in m
    ensures AllIn(r, sec) && NoEmptyLine(r)
    ensures |r| >= |modules|
    ensures forall i | 0 <= i < |r| :: r[i].mod in modules
    decreases |modules|
  {
    if |modules| == 0 then []
    else
      var head := PlainModuleLines(sec, keyword, modules[0], m[modules[0]]);
      var tail := PlainLinesOf(sec, keyword, modules[1..], m);
      ConcatLines(head, tail, sec, modules);
      head + tail
  }

  /** The lines of the first module followed by those of the rest. */
  lemma ConcatLines(head: seq<ImportLine>, tail: seq<ImportLine>, sec: Section, modules: seq<string>)
    requires |modules| > 0
    requires AllIn(head, sec) && NoEmptyLine(head) && forall i | 0 <= i < |head| :: head[i].mod == modules[0]
    requires AllIn(tail, sec) && NoEmptyLine(tail) && forall i | 0 <= i < |tail| :: tail[i].mod in modules[1..]
    ensures AllIn(head + tail, sec) && NoEmptyLine(head + tail)
    ensures forall i | 0 <= i < |head + tail| :: (head + tail)[i].mod in modules
  {
    var r := head + tail;
    forall i | 0 <= i < |r|
      ensures r[i].Entry? && r[i].section == sec && |LineText(r[i])| > 0
      ensures r[i].mod in modules
    {
      if i < |head| {
        assert r[i] == head[i];
      } else {
        assert r[i] == tail[i - |head|];
        var k :| 0 <= k < |modules[1..]| && modules[1..][k] == r[i].mod;
        assert modules[k + 1] == r[i].mod;
      }
    }
  }

  /** Lines of one module followed by lines of larger modules stay sorted. */
  lemma ConcatSorted(head: seq<ImportLine>, tail: seq<ImportLine>, sec: Section, m0: string)
    requires AllIn(head, sec) && AllIn(tail, sec)
    requires forall i | 0 <= i < |head| :: head[i].mod == m0
    requires forall i | 0 <= i < |tail| :: Le(m0, tail[i].mod)
    requires ModulesSorted(tail)
    ensures ModulesSorted(head + tail)
  {
    var z := head + tail;
    LeReflexive(m0);
    forall i, j | 0 <= i < j < |z| && z[i].Entry? && z[j].Entry? && z[i].section == z[j].section
      ensures Le(z[i].mod, z[j].mod)
    {
      if j < |head| {
        assert z[i] == head[i] && z[j] == head[j];
      } else if i < |head| {
        assert z[i] == head[i] && z[j] == tail[j - |head|];
      } else {
        assert z[i] == tail[i - |head|] && z[j] == tail[j - |head|];
      }
    }
  }

  lemma {:induction false} PlainLinesOfSorted(sec: Section, keyword: string, modules: seq<string>, m: PlainRegistry)
    requires forall i | 0 <= i < |modules| :: modules[i] in m
    requires StrictlySorted(modules)
    ensures ModulesSorted(PlainLinesOf(sec, keyword, modules, m))
    decreases |modules|
  {
    if |modules| > 0 {
      var head := PlainModuleLines(sec, keyword, modules[0], m[modules[0]]);
      var tail := PlainLinesOf(sec, keyword, modules[1..], m);
      assert StrictlySorted(modules[1..]) by {
        forall i, j | 0 <= i < j < |modules[1..]|
          ensures Lt(modules[1..][i], modules[1..][j])
        {
          assert modules[1..][i] == modules[i + 1] && modules[1..][j] == modules[j + 1];
        }
      }
      PlainLinesOfSorted(sec, keyword, modules[1..], m);
      forall i | 0 <= i < |tail|
        ensures Le(modules[0], tail[i].mod)
      {
        var k :| 0 <= k < |modules[1..]| && modules[1..][k] == tail[i].mod;
        assert modules[k + 1] == tail[i].mod;
        assert Lt(modules[0], modules[k + 1]);
      }
      ConcatSorted(head, tail, sec, modules[0]);
    }
  }

  /** Some line belongs to module `k`. */
  ghost predicate Lists(lines: seq<ImportLine>, k: string) {
    exists j | 0 <= j < |lines| :: lines[j].Entry? && lines[j].mod == k
  }

  lemma {:induction false} PlainLinesOfComplete(sec: Section, keyword: string, modules: seq<string>, m: PlainRegistry)
    requires forall i | 0 <= i < |modules| :: modules[i] in m
    ensures forall k | k in modules :: Lists(PlainLinesOf(sec, keyword, modules, m), k)
    decreases |modules|
  {
    if |modules| > 0 {
      var head := PlainModuleLines(sec, keyword, modules[0], m[modules[0]]);
      var tail := PlainLinesOf(sec, keyword, modules[1..], m);
      var r := head + tail;
      assert r == PlainLinesOf(sec, keyword, modules, m);
      PlainLinesOfComplete(sec, keyword, modules[1..], m);
      forall k | k in modules
        ensures Lists(r, k)
      {
        if k == modules[0] {
          assert r[0] == head[0];
        } else {
          assert k in modules[1..];
          var j :| 0 <= j < |tail| && tail[j].Entry? && tail[j].mod == k;
          assert r[|head| + j] == tail[j];
        }
      }
    }
  }

  /** Lines of section `sec` whose modules are exactly `keys` cover it. */
  lemma CoversByModules(r: seq<ImportLine>, sec: Section, keys: set<string>)
    requires AllIn(r, sec)
    requires forall i | 0 <= i < |r| :: r[i].mod in keys
    requires forall k | k in keys :: Lists(r, k)
    ensures Covers(r, sec, keys)
  {
    forall k | k in keys
      ensures exists j | 0 <= j < |r| :: r[j].Entry? && r[j].section == sec && r[j].mod == k
    {
      var j :| 0 <= j < |r| && r[j].Entry? && r[j].mod == k;
    }
  }

  /** The plain section: every line belongs to a registered module, every
      module has a line, and modules come in ascending order. */
  function PlainLines(sec: Section, keyword: string, m: PlainRegistry): (r: seq<ImportLine>)
    ensures AllIn(r, sec) && ModulesSorted(r) && NoEmptyLine(r)
    ensures |r| >= |m.Keys|
    ensures m == map[] ==> r == []
    ensures forall i | 0 <= i < |r| :: r[i].mod in m
  {
    var modules := SortedElements(m.Keys);
    PlainLinesOfSorted(sec, keyword, modules, m);
    PlainLinesOf(sec, keyword, modules, m)
  }

  /** Every registered module has at least one plain import line. */
  lemma PlainLinesComplete(sec: Section, keyword: string, m: PlainRegistry)
    ensures Covers(PlainLines(sec, keyword, m), sec, m.Keys)
  {
    var modules := SortedElements(m.Keys);
    var r := PlainLines(sec, keyword, m);
    assert r == PlainLinesOf(sec, keyword, modules, m);
    PlainLinesOfComplete(sec, keyword, modules, m);
    assert forall k | k in m.Keys :: k in modules;
    CoversByModules(r, sec, m.Keys);
  }

  /** `name as a` for each alias of `name` in sorted order, or just `name`. */
  function NameParts(name: string, aliases: set<string>): (r: seq<string>)
    ensures aliases == {} ==> r == [name]
    ensures aliases != {} ==> |r| == |aliases|
    ensures aliases != {} ==> forall i | 0 <= i < |r| :: r[i] == name + " as " + SortedElements(aliases)[i]
  {
    if aliases == {} then [name]
    else
      var sorted := SortedElements(aliases);
      seq(|sorted|, i requires 0 <= i < |sorted| => name + " as " + sorted[i])
  }

  function NamePartsOf(names: seq<string>, m: map<string, set<string>>): (r: seq<string>)
    requires forall i | 0 <= i < |names| :: names[i] in m
    ensures |names| > 0 ==> |r| > 0
    decreases |names|
  {
    if |names| == 0 then []
    else NameParts(names[0], m[names[0]]) + NamePartsOf(names[1..], m)
  }

  /** `', '.join(sub_lines)` of one mod's imported names, sorted. */
  function FromClause(m: map<string, set<string>>): string {
    Join(NamePartsOf(SortedElements(m.Keys), m), ", ")
  }

  /** The clause lists the imported names in strictly ascending order, each
      with its parts: whatever ascending enumeration of the names is
      chosen, it is the one the clause follows. */
  lemma FromClauseOrder(m: map<string, set<string>>, names: seq<string>)
    requires StrictlySorted(names)
    requires forall x :: x in names <==> x in m
    ensures FromClause(m) == Join(NamePartsOf(names, m), ", ")
  {
    SortedUnique(names, SortedElements(m.Keys));
  }

  /** `'from %s %s %s' % (mod, keyword, clause)`. */
  function FromLine(keyword: string, mod: string, names: map<string, set<string>>): string {
    "from " + mod + " " + keyword + " " + FromClause(names)
  }

  function FromLinesOf(sec: Section, keyword: string, modules: seq<string>, m: FromRegistry): (r: seq<ImportLine>)
    requires forall i | 0 <= i < |modules| :: modules[i] in m
    ensures |r| == |modules|
    ensures forall i | 0 <= i < |r| :: r[i] == Entry(sec, modules[i], FromLine(keyword, modules[i], m[modules[i]]))
    decreases |modules|
  {
    if |modules| == 0 then []
    else
      var m0 := modules[0];
      var tail := FromLinesOf(sec, keyword, modules[1..], m);
      assert forall i | 1 <= i < |modules| :: modules[1..][i - 1] == modules[i];
      [Entry(sec, m0, FromLine(keyword, m0, m[m0]))] + tail
  }

  /** The from-section: one line per registered module, modules strictly
      ascending. */
  function FromLines(sec: Section, keyword: string, m: FromRegistry): (r: seq<ImportLine>)
    ensures |r| == |m.Keys|
    ensures AllIn(r, sec) && NoEmptyLine(r)
    ensures forall i | 0 <= i < |r| :: r[i].mod in m
    ensures forall i, j | 0 <= i < j < |r| :: Lt(r[i].mod, r[j].mod)
    ensures forall i | 0 <= i < |r| :: r[i].mod == SortedElements(m.Keys)[i]
  {
    var modules := SortedElements(m.Keys);
    var r := FromLinesOf(sec, keyword, modules, m);
    forall i | 0 <= i < |r|
      ensures r[i].Entry? && r[i].section == sec && r[i].mod == modules[i]
      ensures |LineText(r[i])| > 0 && r[i].mod in m
    {
      assert modules[i] in modules;
    }
    forall i, j | 0 <= i < j < |r|
      ensures Lt(r[i].mod, r[j].mod)
    {
      assert r[i].mod == modules[i] && r[j].mod == modules[j];
    }
    r
  }

  /** Every registered module has its from-line. */
  lemma FromLinesComplete(sec: Section, keyword: string, m: FromRegistry)
    ensures Covers(FromLines(sec, keyword, m), sec, m.Keys)
  {
    var modules := SortedElements(m.Keys);
    var r := FromLines(sec, keyword, m);
    forall k | k in m.Keys
      ensures exists j | 0 <= j < |r| :: r[j].Entry? && r[j].section == sec && r[j].mod == k
    {
      assert k in modules;
      var i :| 0 <= i < |modules| && modules[i] == k;
      assert r[i].Entry? && r[i].section == sec && r[i].mod == k;
    }
  }

  /** A `'\n'` separator entry when any line has accumulated so far,
      whichever section produced it. */
  function SeparateIfAny(lines: seq<ImportLine>): seq<ImportLine> {
    if |lines| > 0 then lines + [Separator] else lines
  }

  /** Appending a later section (after the optional separator) keeps the
      sections in order and the modules sorted. */
  lemma AppendSection(x: seq<ImportLine>, y: seq<ImportLine>, secX: Section, secY: Section)
    requires SectionsOrdered(x) && ModulesSorted(x) && UpTo(x, secX) && NoEmptyLine(x)
    requires AllIn(y, secY) && ModulesSorted(y) && NoEmptyLine(y) && Rank(secX) < Rank(secY)
    ensures SectionsOrdered(SeparateIfAny(x) + y)
    ensures ModulesSorted(SeparateIfAny(x) + y)
    ensures UpTo(SeparateIfAny(x) + y, secY)
    ensures NoEmptyLine(SeparateIfAny(x) + y)
  {
    var sx := SeparateIfAny(x);
    var z := sx + y;
    var n := |sx|;
    assert forall i | 0 <= i < |x| :: sx[i] == x[i];
    assert forall i | |x| <= i < n :: sx[i] == Separator;
    forall i | 0 <= i < |z|
      ensures |LineText(z[i])| > 0
      ensures z[i].Entry? ==> Rank(z[i].section) <= Rank(secY)
    {
      if i >= n {
        assert z[i] == y[i - n];
      } else {
        assert z[i] == sx[i];
      }
    }
    forall i, j | 0 <= i < j < |z| && z[i].Entry? && z[j].Entry?
      ensures Rank(z[i].section) <= Rank(z[j].section)
      ensures z[i].section == z[j].section ==> Le(z[i].mod, z[j].mod)
    {
      if j < n {
        assert z[i] == x[i] && z[j] == x[j];
      } else if i < n {
        assert z[i] == x[i] && z[j] == y[j - n];
      } else {
        assert z[i] == y[i - n] && z[j] == y[j - n];
      }
    }
  }

  /** Entries of section `sec` in the combined list are those of the part
      that holds them. */
  lemma CoversAppend(x: seq<ImportLine>, y: seq<ImportLine>, sec: Section, keys: set<string>)
    requires (Covers(x, sec, keys) && NoneOf(y, sec)) || (NoneOf(x, sec) && Covers(y, sec, keys))
    ensures Covers(SeparateIfAny(x) + y, sec, keys)
  {
    var sx := SeparateIfAny(x);
    var z := sx + y;
    var n := |sx|;
    assert forall i | 0 <= i < |x| :: sx[i] == x[i];
    assert forall i | |x| <= i < n :: sx[i] == Separator;
    forall k | k in keys
      ensures exists i | 0 <= i < |z| :: z[i].Entry? && z[i].section == sec && z[i].mod == k
    {
      if Covers(x, sec, keys) && NoneOf(y, sec) {
        var i :| 0 <= i < |x| && x[i].Entry? && x[i].section == sec && x[i].mod == k;
        assert z[i] == x[i];
      } else {
        var i :| 0 <= i < |y| && y[i].Entry? && y[i].section == sec && y[i].mod == k;
        assert z[n + i] == y[i];
      }
    }
    forall k | exists i | 0 <= i < |z| :: z[i].Entry? && z[i].section == sec && z[i].mod == k
      ensures k in keys
    {
      var i :| 0 <= i < |z| && z[i].Entry? && z[i].section == sec && z[i].mod == k;
      if i < |x| {
        assert z[i] == x[i];
      } else if i >= n {
        assert z[i] == y[i - n];
      }
    }
  }

  /** A registry with no keys is the empty one. */
  lemma NoKeys<V>(m: map<string, V>)
    ensures |m.Keys| == 0 <==> m == map[]
  {
    if |m.Keys| == 0 {
      assert m.Keys == {};
      assert forall k :: k !in m;
    }
  }

  /** The assembled list is empty exactly when every section is. */
  lemma SectionsEmpty(a: seq<ImportLine>, b: seq<ImportLine>, d: seq<ImportLine>, e: seq<ImportLine>)
    ensures SeparateIfAny(SeparateIfAny(SeparateIfAny(a) + b) + d) + e == [] <==> a == [] && b == [] && d == [] && e == []
  {
    assert |SeparateIfAny(a)| >= |a|;
  }

  /** `import_lines` as the source builds it: the four sections in the
      fixed order, with a separator entry after each of the first three
      whenever the list is non-empty at that point. */
  function ImportLines(c: Code): (r: seq<ImportLine>)
    ensures SectionsOrdered(r)
    ensures ModulesSorted(r)
    ensures NoEmptyLine(r)
    ensures NoImports(c) <==> r == []
  {
    var a := PlainLines(CimportSection, "cimport", c.cimports);
    var b := FromLines(CimportFromSection, "cimport", c.cimportsFrom);
    var d := PlainLines(ImportSection, "import", c.imports);
    var e := FromLines(ImportFromSection, "import", c.importsFrom);
    var ab := SeparateIfAny(a) + b;
    var abd := SeparateIfAny(ab) + d;
    AppendSection(a, b, CimportSection, CimportFromSection);
    AppendSection(ab, d, CimportFromSection, ImportSection);
    AppendSection(abd, e, ImportSection, ImportFromSection);
    SectionsEmpty(a, b, d, e);
    NoKeys(c.cimports);
    NoKeys(c.cimportsFrom);
    NoKeys(c.imports);
    NoKeys(c.importsFrom);
    SeparateIfAny(abd) + e
  }

  /** Each section of the import lines lists exactly the modules registered
      for it. */
  lemma ImportLinesCover(c: Code)
    ensures Covers(ImportLines(c), CimportSection, c.cimports.Keys)
    ensures Covers(ImportLines(c), CimportFromSection, c.cimportsFrom.Keys)
    ensures Covers(ImportLines(c), ImportSection, c.imports.Keys)
    ensures Covers(ImportLines(c), ImportFromSection, c.importsFrom.Keys)
  {
    var a := PlainLines(CimportSection, "cimport", c.cimports);
    var b := FromLines(CimportFromSection, "cimport", c.cimportsFrom);
    var d := PlainLines(ImportSection, "import", c.imports);
    var e := FromLines(ImportFromSection, "import", c.importsFrom);
    var ab := SeparateIfAny(a) + b;
    var abd := SeparateIfAny(ab) + d;
    AppendSection(a, b, CimportSection, CimportFromSection);
    AppendSection(ab, d, CimportFromSection, ImportSection);
    assert ImportLines(c) == SeparateIfAny(abd) + e;
    PlainLinesComplete(CimportSection, "cimport", c.cimports);
    CoverCimports(a, b, d, e, c.cimports.Keys);
    CoverCimportsFrom(a, b, d, e, c.cimportsFrom);
    CoverImports(ab, d, e, c.imports);
    FromLinesComplete(ImportFromSection, "import", c.importsFrom);
    CoversAppend(abd, e, ImportFromSection, c.importsFrom.Keys);
  }

  lemma CoverCimports(a: seq<ImportLine>, b: seq<ImportLine>, d: seq<ImportLine>, e: seq<ImportLine>, keys: set<string>)
    requires Covers(a, CimportSection, keys)
    requires AllIn(b, CimportFromSection) && AllIn(d, ImportSection) && AllIn(e, ImportFromSection)
    ensures Covers(SeparateIfAny(SeparateIfAny(SeparateIfAny(a) + b) + d) + e, CimportSection, keys)
  {
    CoversAppend(a, b, CimportSection, keys);
    CoversAppend(SeparateIfAny(a) + b, d, CimportSection, keys);
    CoversAppend(SeparateIfAny(SeparateIfAny(a) + b) + d, e, CimportSection, keys);
  }

  lemma CoverCimportsFrom(a: seq<ImportLine>, b: seq<ImportLine>, d: seq<ImportLine>, e: seq<ImportLine>, m: FromRegistry)
    requires AllIn(a, CimportSection) && AllIn(d, ImportSection) && AllIn(e, ImportFromSection)
    requires b == FromLines(CimportFromSection, "cimport", m)
    ensures Covers(SeparateIfAny(SeparateIfAny(SeparateIfAny(a) + b) + d) + e, CimportFromSection, m.Keys)
  {
    FromLinesComplete(CimportFromSection, "cimport", m);
    CoversAppend(a, b, CimportFromSection, m.Keys);
    CoversAppend(SeparateIfAny(a) + b, d, CimportFromSection, m.Keys);
    CoversAppend(SeparateIfAny(SeparateIfAny(a) + b) + d, e, CimportFromSection, m.Keys);
  }

  lemma CoverImports(ab: seq<ImportLine>, d: seq<ImportLine>, e: seq<ImportLine>, m: PlainRegistry)
    requires UpTo(ab, CimportFromSection) && AllIn(e, ImportFromSection)
    requires d == PlainLines(ImportSection, "import", m)
    ensures Covers(SeparateIfAny(SeparateIfAny(ab) + d) + e, ImportSection, m.Keys)
  {
    PlainLinesComplete(ImportSection, "import", m);
    CoversAppend(ab, d, ImportSection, m.Keys);
    CoversAppend(SeparateIfAny(ab) + d, e, ImportSection, m.Keys);
  }

  /** `_gen_imports()`: the lines joined with `'\n'`; empty exactly when
      nothing was registered. */
  function GenImports(c: Code): (r: string)
    ensures r == "" <==> NoImports(c)
  {
    var texts := LineTexts(ImportLines(c));
    assert !NoImports(c) ==> |texts| > 0 && |texts[0]| > 0;
    Join(texts, "\n")
  }

  /** No registry holds anything. */
  predicate NoImports(c: Code) {
    c.cimports == map[] && c.cimportsFrom == map[] && c.imports == map[] && c.importsFrom == map[]
  }

  /** Header comment, then the import text followed by a blank line when it
      is non-empty, then the body. */
  function Assemble(imports: string, body: string): (r: string)
    ensures |r| >= |CodeHeader| + |body| && r[..|CodeHeader|] == CodeHeader
    ensures r[|r| - |body|..] == body
    ensures r == CodeHeader + body <==> imports == ""
    ensures imports != "" ==> r[|CodeHeader|..|r| - |body|] == imports + "\n\n"
  {
    if imports != "" then
      var r := CodeHeader + imports + "\n\n" + body;
      assert |r| > |CodeHeader + body|;
      assert r == CodeHeader + (imports + "\n\n" + body);
      assert r == (CodeHeader + imports + "\n\n") + body;
      assert r[|CodeHeader|..|r| - |body|] == imports + "\n\n";
      r
    else
      CodeHeader + body
  }

  /** `code()`: the finished text of the generated file. */
  function Output(c: Code): (r: string)
    ensures |r| >= |CodeHeader| + |c.body| && r[..|CodeHeader|] == CodeHeader
    ensures r[|r| - |c.body|..] == c.body
    ensures r == CodeHeader + c.body <==> NoImports(c)
    ensures !NoImports(c) ==> r[|CodeHeader|..|r| - |c.body|] == GenImports(c) + "\n\n"
  {
    Assemble(GenImports(c), c.body)
  }
}
