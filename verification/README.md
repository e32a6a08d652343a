# CWrap extern renderer, modelled in Dafny

CWrap turns parsed C headers into Cython declaration files. This project
models its renderer (`cwrap/renderers.py`). The renderer has two parts.

- **`Code`** is a text builder. It holds a body buffer, an indent level and
  four import registries. These are `cimport`, `from … cimport`, `import` and
  `from … import`. `code()` puts a fixed header comment, the sorted import
  lines and the body together.
- **`ExternRenderer`** walks the items of one parsed header. It writes a
  `cdef extern from "<header>":` block that declares the header's own
  items: typedefs, structs, unions, enums and functions. For every item,
  and every visited node, located in another header, it registers
  `from _<module> cimport *`. The type of a field is never visited, so a
  field's type from another header registers nothing.

The mutable builder is modelled as an immutable record (`CodeBuilder.Code`)
that every operation returns updated. The visitor threads this record
through pure functions.

The correctness of the visitor rests on two reference definitions:

- `Renderer.Text` is the text a visit appends at a given indent level.
- `Renderer.Origins` is the set of import modules a visit registers.

These definitions (and `Renderer.TypedefText` inside `Text`) carry no
contract of their own. What their output looks like is stated by the
lemmas of `RenderProperties`. `TypedefLines`, `CompositeLines`,
`BlockLines`, `MemberLines` and `ParameterList` state this for `Text`.
`OriginsAreModuleNames` states it for `Origins`.

Every visit function is proved to agree with both. The properties in
`RenderProperties` are stated in terms of these definitions. They cover:

- the import block;
- the fate of items from other headers;
- the line structure of struct/union/enum declarations;
- function parameter lists.

`RenderExamples` fixes the output character by character for
representative declarations. It covers the cases where the code's output
differs from what a C-to-Cython translator would be expected to write.

Modules:

- `Options`: option type.
- `Strings`: string order, counts, join, decimal digits, basename, `rstrip`.
- `Sorting`: a set of strings as a sorted sequence.
- `CodeBuilder`: the `Code` class.
- `CAst`: the parsed node classes the renderer reads.
- `Declarators`: `apply_modifier` and the type spellings built on it.
- `Renderer`: `ExternRenderer`.
- `RenderProperties`: multi-call properties.
- `RenderExamples`: the worked examples.

Some outputs of the code are easy to misread. The model fixes each of
them:

- **Blank lines after the imports.** The `'\n'` separator entries of
  `_gen_imports` are joined with `'\n'`, and `code()` adds `'\n\n'` after
  them. So a file whose only imports are star cimports has six newline
  characters between the last import line and the extern block
  (`RenderProperties.RenderOneImport`).
- **An array of pointers** is spelled `int *(p[4])`. It is not spelled
  `int *p[4]`: a change of layer kind always adds parentheses
  (`RenderExamples.ArrayOfPointers`).
- **`typedef struct Node Node`** is written as `cdef struct Node`. It is not
  written as a `ctypedef` (`RenderExamples.SameNameExample`).
- **A typedef of a pointer or array** writes `ctypedef `, then whatever
  visiting the pointed-to type writes, then the alias. It does not use
  `apply_modifier`. A pointer to a primitive therefore gives
  `ctypedef  name`, with two spaces (`RenderExamples.PointerTypedefExample`).
- **A function with no arguments** gets the placeholder `(__UNDEFINED__)`
  (`RenderExamples.NoParameterExample`).
- **Module names strip a character set.** `rstrip('.h')` removes every
  trailing `.` and `h`, so `include/graph.h` is imported as `_grap`
  (`RenderExamples.ImportModuleExample`).

## Model

| member | source | states |
|---|---|---|
| CodeBuilder.Indentation | cwrap/renderers.py:35 | the indentation for a level is exactly four spaces per level and nothing for a level of zero or below |
| CodeBuilder.Indent | cwrap/renderers.py:28-32 | indenting by `n` and then dedenting by `n` gives back the original builder |
| CodeBuilder.Dedent | cwrap/renderers.py:31-32 | dedenting lowers the level by exactly `n`, with no clamping at zero, and changes neither the body nor the imports |
| CodeBuilder.WriteI | cwrap/renderers.py:34-36 | the body grows by `4 * level` spaces and then the text; level and imports are unchanged |
| CodeBuilder.Write | cwrap/renderers.py:38-39 | the body grows by exactly the text, with no indentation; level and imports are unchanged |
| CodeBuilder.AddPlain | cwrap/renderers.py:41-48 | the alias joins the module's alias set; the module becomes a key; every other module's aliases are kept |
| CodeBuilder.AddImport | cwrap/renderers.py:41-42 | only the import registry changes: the module's alias set gains the alias, the module becomes a key, and every other module keeps its aliases |
| CodeBuilder.AddImportFrom | cwrap/renderers.py:44-45 | only the import-from registry changes: the name's alias set under the module gains the alias, and every other module, name and alias is kept |
| CodeBuilder.AddCimport | cwrap/renderers.py:47-48 | only the cimport registry changes: the module's alias set gains the alias, the module becomes a key, and every other module keeps its aliases |
| CodeBuilder.AddFrom | cwrap/renderers.py:50-54 | the name is recorded under the module; without an alias the name's alias set is only made present, and re-adding a known name changes nothing; every other entry is kept |
| CodeBuilder.AddCimportFrom | cwrap/renderers.py:50-54 | only the cimport-from registry changes: the name is recorded under the module, with the alias when one is given, and every other entry is kept; re-registering a known name without an alias changes nothing |
| RenderProperties.StarImportIdempotent | cwrap/renderers.py:50-54 | registering the same star import twice gives the same builder as registering it once |
| Sorting.SortedElements | cwrap/renderers.py:60 | the result holds exactly the set's elements, strictly ascending, each once |
| Sorting.SortedUnique | cwrap/renderers.py:60 | two strictly ascending sequences with the same elements are equal, so `sorted` of a set has exactly one result |
| CodeBuilder.PlainModuleLines | cwrap/renderers.py:61-66 | a module without aliases gives the single line `<kw> m`; otherwise line `i` is `<kw> m as a` for the `i`-th alias in ascending order |
| CodeBuilder.PlainLines | cwrap/renderers.py:60-66 | every line belongs to the section and to a registered module, modules ascend, no line is empty, and there are at least as many lines as modules |
| CodeBuilder.PlainLinesComplete | cwrap/renderers.py:60-66 | the section lists exactly the registered modules |
| CodeBuilder.FromLinesOf | cwrap/renderers.py:73-82 | line `i` is `from <modules[i]> <keyword> <clause>` for the `i`-th module |
| CodeBuilder.NameParts | cwrap/renderers.py:75-80 | a name without aliases is one part, the bare name; otherwise part `i` is `name as a` for the `i`-th alias in ascending order |
| CodeBuilder.FromClauseOrder | cwrap/renderers.py:73-81 | the from-clause joins with `, ` the parts of the module's names taken in strictly ascending order |
| CodeBuilder.FromLines | cwrap/renderers.py:72-82 | one line per registered module, in strictly ascending module order, none empty |
| CodeBuilder.FromLinesComplete | cwrap/renderers.py:72-82 | the from-section lists exactly the registered modules |
| CodeBuilder.ImportLines | cwrap/renderers.py:56-111 | the four sections come in the fixed order cimport, cimport-from, import, import-from; modules ascend within a section; no line is empty; the list is empty exactly when no registry holds anything |
| CodeBuilder.ImportLinesCover | cwrap/renderers.py:56-111 | each section of the list names exactly the modules registered for it |
| CodeBuilder.GenImports | cwrap/renderers.py:56-112 | the joined import text is empty exactly when no registry holds anything |
| CodeBuilder.Assemble | cwrap/renderers.py:116-120 | the result starts with the header comment and ends with the body; between them is the import text followed by a blank line when there is import text, and nothing otherwise |
| CodeBuilder.Output | cwrap/renderers.py:114-120 | `code()` is the header comment, then the generated import text and `\n\n` when any import was registered, then the body |
| Strings.Join | cwrap/renderers.py:81 | the length is the parts' total length plus one separator between neighbours, and the text starts with the first part |
| Strings.JoinCount | cwrap/renderers.py:81 | a character occurs in the joined text as often as in the parts plus once per separator occurrence between neighbours |
| Strings.JoinSnoc | cwrap/renderers.py:81 | joining one more part appends the separator and that part |
| Strings.Basename | cwrap/renderers.py:146 | the result is the suffix of the path after its last `/` and holds no `/` |
| Strings.RStrip | cwrap/renderers.py:146 | the result is a prefix of the input; everything removed is in the character set, and the last character kept is not |
| Renderer.ImportModule | cwrap/renderers.py:146 | the module name is `_` followed by the header's base name with its trailing run of `.` and `h` removed: what is kept is a prefix, what is removed is only `.`/`h`, and the kept part does not end in either and holds no `/` |
| Renderer.Opener | cwrap/renderers.py:135-136 | the opening line is `cdef extern from "`, the header name, and `":` followed by a blank line |
| RenderExamples.ImportModuleExample | cwrap/renderers.py:146 | `include/graph.h` is imported as `_grap`, because `rstrip` strips a set of characters |
| RenderExamples.ImportModuleOfName | cwrap/renderers.py:146 | `list.h` is imported as `_list` |
| Renderer.NoteOrigin | cwrap/renderers.py:156-160 | the body is unchanged; exactly the module of a location in another header is registered, as a star cimport |
| Renderer.Visit | cwrap/renderers.py:153-165 | a visit leaves the level as found, appends exactly `Text` of the node, and registers exactly `Origins` of the node as star imports and nothing else |
| Renderer.VisitParts | cwrap/renderers.py:162-164 | dispatching on the node kind appends `Text` and registers the imports of the node's parts |
| Renderer.VisitTypedef | cwrap/renderers.py:170-187 | a typedef appends `TypedefText` and registers imports only when it visits a struct, union, enum, pointer or array |
| Renderer.VisitModifiedTypedef | cwrap/renderers.py:173-177 | a typedef of a pointer or array writes `ctypedef `, the visit of the type, and the alias, and registers what the visit of the type registers |
| RenderProperties.TypedefLines | cwrap/renderers.py:170-187 | a typedef of a typedef or primitive is one `ctypedef <base> <alias>` line and a blank line; of a struct/union/enum, that declaration under the alias; of a pointer or array, `ctypedef `, the type's own text and the alias; of anything else, nothing |
| RenderExamples.PrimitiveTypedefExample | cwrap/renderers.py:182-185 | `typedef unsigned long size_t` is written `ctypedef unsigned long size_t` and a blank line |
| RenderExamples.TypedefOfTypedefExample | cwrap/renderers.py:178-181 | a typedef of the typedef `edge` is written `ctypedef edge edge_t` at the current indentation |
| RenderExamples.FunctionTypedefExample | cwrap/renderers.py:186-187 | a typedef of a function type writes nothing |
| Renderer.SpellingOf | cwrap/renderers.py:290-338 | the head is `ctypedef <kw> <alias>` exactly for an anonymous tag under a typedef, and `cdef enum` for an anonymous top-level enum; an alias line `ctypedef <tag> <alias>` is added exactly for a named tag that differs from the typedef name |
| Renderer.VisitComposite | cwrap/renderers.py:189-231 | a struct/union/enum appends `CompositeText` and registers the imports of its fields unless it is opaque |
| Renderer.Block | cwrap/renderers.py:195-202 | the head line, then the fields one level deeper, with the level restored afterwards |
| Renderer.VisitFields | cwrap/renderers.py:200-201 | the fields are written in declared order, each by its own visit |
| Renderer.VisitLeaf | cwrap/renderers.py:277-288 | fields, enum values and arguments write their one spelling and register nothing |
| Declarators.TypedName | cwrap/renderers.py:279-287 | a non-pointer, non-array type leaves the declarator as the given name; a pointer or array type is spelled exactly as `apply_modifier` spells it; the type name is the base type's name, or the placeholder for a base that cannot be named |
| Renderer.VisitFunction | cwrap/renderers.py:344-358 | a function appends `FunctionText`; an unsupported return type registers nothing |
| Renderer.VisitSignature | cwrap/renderers.py:360-377 | the name, the parameter list and `)` with a blank line; imports are registered only when the arguments are visited |
| Renderer.VisitArgs | cwrap/renderers.py:372-375 | the arguments are written in order, joined by `, ` |
| Renderer.VisitItems | cwrap/renderers.py:138-147 | own items append their `Text` in input order; other items append nothing and register their header's module |
| Renderer.RenderCode | cwrap/renderers.py:130-149 | after the walk the level is back to 0, the body is the extern line followed by the own items one level deep, and only star cimports from the foreign modules met are registered |
| Renderer.Render | cwrap/renderers.py:130-151 | the file ends with the extern block, and is the header comment plus the block exactly when no foreign module was met |
| RenderProperties.StarSection | cwrap/renderers.py:72-82 | with only star registrations, the cimport-from section is one `from m cimport *` line per module, modules ascending |
| RenderProperties.StarOnlyImportLines | cwrap/renderers.py:56-111 | with only star cimports, the import list is the star lines followed by two `'\n'` separator entries, or empty |
| RenderProperties.StarOnlyImportText | cwrap/renderers.py:56-112 | with only star cimports, the import text is the star lines joined by newlines followed by four newlines |
| RenderProperties.RenderText | cwrap/renderers.py:114-151 | the whole file is the header comment, then the sorted star imports followed by six newlines when any foreign module was met, then the extern block |
| RenderProperties.RenderOneImport | cwrap/renderers.py:114-151 | when exactly one foreign module was met, that module's star line sits between the header comment and the extern block, followed by six newlines |
| RenderExamples.RenderExample | cwrap/renderers.py:130-151 | a header with a typedef'd anonymous struct, a foreign typedef and a `void` function renders as its two own items after one star import of `_grap` |
| RenderExamples.SampleItemsAndOrigins | cwrap/renderers.py:138-147 | in that header only the two own items are written, in input order, and the foreign item is the only source of an import |
| RenderProperties.ItemsTextConcat | cwrap/renderers.py:138-141 | the block text of a sequence of items is the text of its parts in turn |
| RenderProperties.ForeignItemNotRendered | cwrap/renderers.py:139-147 | removing an item of another header leaves the extern block text unchanged |
| RenderProperties.ForeignItemImported | cwrap/renderers.py:142-147 | an item located in another header always has its module registered |
| RenderProperties.ItemsOriginsAreModuleNames | cwrap/renderers.py:146-147 | every registered module is a name `_…` that ends neither in `.` nor in `h` and holds no `/` |
| RenderProperties.OriginsAreModuleNames | cwrap/renderers.py:153-165 | every module a visit registers, for the node or any node it visits, is a name `_…` that ends neither in `.` nor in `h` and holds no `/` |
| RenderProperties.MemberLines | cwrap/renderers.py:200-201 | the member text is, for each member in declared order, the indentation of the level, the member's spelling and a newline; so it has one line per member |
| RenderProperties.BlockLines | cwrap/renderers.py:195-202 | the block is its head line, ending in `:` exactly when defined, followed, unless opaque, by every member's spelling in order on its own line one level deeper |
| RenderProperties.CompositeLines | cwrap/renderers.py:189-231 | a declaration is its head line, the member lines one level deeper (none when opaque), the alias line when there is one, and a blank line; this gives 2 + members + 1 for a differing alias newlines |
| RenderProperties.SpellingLines | cwrap/renderers.py:221 | the head has no line break of its own, and the alias line is exactly one line |
| RenderProperties.ParameterList | cwrap/renderers.py:362-375 | no arguments give the placeholder; a lone `void` gives nothing; otherwise there is exactly one `, ` fewer than arguments |
| RenderProperties.UnsupportedReturn | cwrap/renderers.py:355-358 | an unsupported return type writes only the placeholder line, with no parameter list |
| Declarators.ApplyModifier | cwrap/renderers.py:399-431 | a base that cannot be named gives the placeholder pair; otherwise the type name is the base's name and the declarator is the name wrapped by the layers' prefixes (`*`, `(`) and suffixes (`)`, `[n]`), the name alone when there are no layers |
| Declarators.Fold | cwrap/renderers.py:415-429 | from layer `i` on, the loop wraps the name in exactly the remaining layers' prefix and suffix, adding one `*` per pointer, one `[` per array and one pair of parentheses per change of layer kind |
| Declarators.LayerCounts | cwrap/renderers.py:416-426 | one layer adds one `*` (pointer) or `[` (array), plus one `(` and `)` when its kind differs from the previous layer's |
| Declarators.ApplyLayer | cwrap/renderers.py:415-426 | one layer puts `*` before the name for a pointer, `[n]` after it for an array, and parentheses around it first when its kind differs from the previous layer's |
| Declarators.Layers | cwrap/renderers.py:403-406 | the layers are empty exactly for a type that is neither a pointer nor an array, and each one is a pointer or an array |
| Declarators.BaseOf | cwrap/renderers.py:403-406 | the type under all pointer and array layers is itself neither a pointer nor an array |
| Declarators.ApplyModifierCounts | cwrap/renderers.py:415-429 | the declarator holds one `*` per pointer layer, one `[` per array layer and one pair of parentheses per change of layer kind more than the name |
| Declarators.PointerSpelling | cwrap/renderers.py:420-421 | one pointer over a nameable base puts `*` before the name |
| Strings.DecimalRoundTrip | cwrap/renderers.py:426 | the decimal spelling of an array dimension reads back as that dimension |
| Strings.NatToString | cwrap/renderers.py:426 | an array dimension is spelled as a non-empty run of decimal digits |
| RenderExamples.ArrayOfPointers | cwrap/renderers.py:415-426 | an array of four pointers to `int` is spelled `int *(p[4])` |
| RenderExamples.PointerToArray | cwrap/renderers.py:415-426 | a pointer to an array of four `int` is spelled `int (*p)[4]` |
| RenderExamples.UnsizedArray | cwrap/renderers.py:423-426 | an array without a size is spelled `a[]` |
| RenderExamples.FunctionPointerBase | cwrap/renderers.py:411-413 | a pointer to a function gives the placeholder for both type and name |
| RenderExamples.ArrayFieldExample | cwrap/renderers.py:283-288 | a field of that array type is written `int *(p[4])` on its own indented line |
| RenderExamples.AnonymousStructExample | cwrap/renderers.py:203-211 | `typedef struct { int x; int y; } P` gives `ctypedef struct P:` with its two fields one level deeper and a blank line |
| RenderExamples.SameNameExample | cwrap/renderers.py:194-196 | an opaque struct typedef'd to its own tag is `cdef struct N`, with no `ctypedef` |
| RenderExamples.DistinctNamesExample | cwrap/renderers.py:212-221 | an opaque tag typedef'd to another name gives the `cdef struct` line and then the `ctypedef tag alias` line |
| RenderExamples.AnonymousEnumExample | cwrap/renderers.py:330-337 | an anonymous top-level enum is `cdef enum:` with one indented line per value |
| RenderExamples.PointerTypedefExample | cwrap/renderers.py:173-177 | a typedef of `int *` writes `ctypedef  name`: the pointer's visit writes nothing |
| RenderExamples.VoidParameterExample | cwrap/renderers.py:367-370 | a lone `void` argument gives `()` |
| RenderExamples.NoParameterExample | cwrap/renderers.py:362-365 | no arguments give `(__UNDEFINED__)` |
| RenderExamples.TwoParameterExample | cwrap/renderers.py:372-377 | two arguments are written in order, separated by `, ` |
| RenderExamples.PointerReturnExample | cwrap/renderers.py:352-354 | a pointer return type puts the `*` before the function name |

## Left out

- `print` diagnostics: the unhandled-node messages have no model. The branches that print still write the text the code writes, or nothing.
- `StringIO`: the body buffer is a string.
- Class-name dispatch through `getattr`: it becomes a `match` on the node kind. A primitive type class has no `visit_` method of its own and no location. Visiting one writes nothing, and the model keeps that.
- The node stack: only the parent of a struct/union/enum is ever read from it, so an explicit `Enclosing` argument replaces it.
- Inputs on which the source raises are excluded by preconditions rather than modelled as errors. These are: an item without a location (`Located`); `apply_modifier` concatenating an absent name (`NeedsName`); a lone argument without `typ` (`Renderable`).
- CodeBuilder.AddImport: models only calls that give an alias, because without one Python 2 stores `None` in the alias set and sorts it before all strings, printing `as None`.
- CodeBuilder.AddImportFrom: models only calls that give an alias, for the same reason.
- CodeBuilder.AddCimport: models only calls that give an alias, for the same reason.
- `os.path.split`: modelled for `/`-separated paths only.
- `cy_ast` is not part of this model. `CAst.Node` stands for the node classes the renderer reads, with the attributes it uses.
- The conversion driver `convert.py` is not part of this model.
