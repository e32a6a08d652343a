/** Spelling of a type with its declared name: a typedef name or primitive
    spelling, and for pointer/array types the C declarator built by
    `apply_modifier` (cwrap/renderers.py). */
module Declarators {
  import opened Options
  import opened Strings
  import opened CAst

  /** Placeholder written where a node shape is not handled. */
  const Undefined: string := "__UNDEFINED__"

  /** One entry of `apply_modifier`'s stack. */
  datatype Layer = PointerLayer | ArrayLayer(dim: Option<nat>)

  /** The pointer/array layers of `t`, outermost first: one per pointer
      or array node above the base. */
  function Layers(t: Node): (r: seq<Layer>)
    ensures |r| == 0 <==> !(t.Pointer? || t.Array?)
    ensures |r| == PointerCount(r) + ArrayCount(r)
    decreases t
  {
    match t
    case Pointer(_, u) => [PointerLayer] + Layers(u)
    case Array(_, u, d) => [ArrayLayer(d)] + Layers(u)
    case _ => []
  }

  /** The type under all pointer/array layers. */
  function BaseOf(t: Node): (b: Node)
    ensures !b.Pointer? && !b.Array?
    decreases t
  {
    match t
    case Pointer(_, u) => BaseOf(u)
    case Array(_, u, _) => BaseOf(u)
    case _ => t
  }

  /** The base is one `apply_modifier` can name. */
  predicate HandledBase(t: Node) {
    BaseOf(t).Typedef? || BaseOf(t).Primitive?
  }

  /** A typedef's identifier or a primitive's C spelling. */
  function BaseName(b: Node): string
    requires b.Typedef? || b.Primitive?
  {
    if b.Typedef? then Show(b.identifier) else CName(b.prim)
  }

  /** `'%s' % dim` with an unset size written as nothing. */
  function DimText(d: Option<nat>): (r: string)
    ensures forall i | 0 <= i < |r| :: IsDigit(r[i])
  {
    match d
    case None => ""
    case Some(n) => NatToString(n)
  }

  /** `isinstance(node, type(previous))`. */
  predicate SameKind(a: Layer, b: Layer) {
    a.PointerLayer? == b.PointerLayer?
  }

  function PointerCount(s: seq<Layer>): nat {
    if |s| == 0 then 0 else (if s[0].PointerLayer? then 1 else 0) + PointerCount(s[1..])
  }

  function ArrayCount(s: seq<Layer>): nat {
    if |s| == 0 then 0 else (if s[0].ArrayLayer? then 1 else 0) + ArrayCount(s[1..])
  }

  /** Layer `i` differs in kind from the layer before it. */
  predicate KindChange(s: seq<Layer>, i: nat)
    requires i < |s|
  {
    i > 0 && !SameKind(s[i], s[i - 1])
  }

  /** Number of positions `j >= i` (with `j > 0`) whose layer differs in
      kind from the one before it. */
  function KindChanges(s: seq<Layer>, i: nat): nat
    requires i <= |s|
    decreases |s| - i
  {
    if i == |s| then 0
    else (if KindChange(s, i) then 1 else 0) + KindChanges(s, i + 1)
  }

  /** A digit string holds none of the declarator punctuation. */
  lemma DigitsHaveNoMarks(s: string, ch: char)
    requires forall i | 0 <= i < |s| :: IsDigit(s[i])
    requires !IsDigit(ch)
    ensures Count(s, ch) == 0
  {
    CountAbsent(s, ch);
  }

  /** What layer `i` puts in front of the name: `*` for a pointer, then `(`
      when its kind differs from the previous layer's. */
  function LayerPrefix(s: seq<Layer>, i: nat): string
    requires i < |s|
  {
    (if s[i].PointerLayer? then "*" else "") + (if KindChange(s, i) then "(" else "")
  }

  /** What layer `i` puts after the name: `)` when its kind differs from
      the previous layer's, then `[dim]` for an array. */
  function LayerSuffix(s: seq<Layer>, i: nat): string
    requires i < |s|
  {
    (if KindChange(s, i) then ")" else "") + (if s[i].ArrayLayer? then "[" + DimText(s[i].dim) + "]" else "")
  }

  /** The name after applying one layer, parenthesised first when the
      layer differs in kind from the previous one. */
  function ApplyLayer(s: seq<Layer>, i: nat, name: string): (r: string)
    requires i < |s|
    ensures r == LayerPrefix(s, i) + name + LayerSuffix(s, i)
  {
    var wrapped := if KindChange(s, i) then "(" + name + ")" else name;
    match s[i]
    case PointerLayer =>
      assert LayerSuffix(s, i) == (if KindChange(s, i) then ")" else "");
      "*" + wrapped
    case ArrayLayer(d) =>
      assert LayerPrefix(s, i) == (if KindChange(s, i) then "(" else "");
      wrapped + "[" + DimText(d) + "]"
  }

  /** Everything layers `i..` put in front of the name, the last layer
      outermost: only `*` and `(`. */
  function Prefix(s: seq<Layer>, i: nat): (r: string)
    requires i <= |s|
    ensures forall k | 0 <= k < |r| :: r[k] == '*' || r[k] == '('
    decreases |s| - i
  {
    if i == |s| then "" else Prefix(s, i + 1) + LayerPrefix(s, i)
  }

  /** Everything layers `i..` put after the name, the last layer outermost:
      only `)`, brackets and digits. */
  function Suffix(s: seq<Layer>, i: nat): (r: string)
    requires i <= |s|
    ensures forall k | 0 <= k < |r| :: r[k] == ')' || r[k] == '[' || r[k] == ']' || IsDigit(r[k])
    decreases |s| - i
  {
    if i == |s| then ""
    else
      var x := LayerSuffix(s, i);
      assert forall k | 0 <= k < |x| :: x[k] == ')' || x[k] == '[' || x[k] == ']' || IsDigit(x[k]) by {
        var d := if s[i].ArrayLayer? then DimText(s[i].dim) else "";
        assert s[i].ArrayLayer? ==> x == (if KindChange(s, i) then ")" else "") + "[" + d + "]";
      }
      x + Suffix(s, i + 1)
  }

  /** The loop of `apply_modifier` from position `i` on: outermost layer
      first. The name comes out between everything the layers put in front
      of it and everything they put after it; each pointer adds one `*`,
      each array one `[dim]`, and each change of kind one pair of
      parentheses. */
  function Fold(s: seq<Layer>, i: nat, name: string): (r: string)
    requires i <= |s|
    ensures r == Prefix(s, i) + name + Suffix(s, i)
    ensures Count(r, '*') == Count(name, '*') + PointerCount(s[i..])
    ensures Count(r, '[') == Count(name, '[') + ArrayCount(s[i..])
    ensures Count(r, '(') == Count(name, '(') + KindChanges(s, i)
    ensures Count(r, ')') == Count(name, ')') + KindChanges(s, i)
    decreases |s| - i
  {
    if i == |s| then
      assert name == "" + name + "";
      name
    else
      var next := ApplyLayer(s, i, name);
      LayerCounts(s, i, name);
      assert s[i..][1..] == s[i + 1..];
      var r := Fold(s, i + 1, next);
      WrapAssoc(Prefix(s, i + 1), LayerPrefix(s, i), name, LayerSuffix(s, i), Suffix(s, i + 1));
      r
  }

  /** Regrouping the pieces around the name. */
  lemma WrapAssoc(p: string, lp: string, name: string, ls: string, q: string)
    ensures p + (lp + name + ls) + q == (p + lp) + name + (ls + q)
  {
  }

  /** Parenthesising adds one `(` and one `)`. */
  lemma WrapCounts(name: string, ch: char)
    ensures Count("(" + name + ")", ch) == Count(name, ch) + (if ch == '(' then 1 else 0) + (if ch == ')' then 1 else 0)
  {
    CountConcat("(", name, ch);
    CountConcat("(" + name, ")", ch);
  }

  /** A pointer layer adds one `*`. */
  lemma StarCounts(w: string, ch: char)
    ensures Count("*" + w, ch) == Count(w, ch) + (if ch == '*' then 1 else 0)
  {
    CountConcat("*", w, ch);
  }

  /** An array layer adds one `[` and one `]` and only digits between. */
  lemma BracketCounts(w: string, d: Option<nat>, ch: char)
    requires !IsDigit(ch)
    ensures Count(w + "[" + DimText(d) + "]", ch) == Count(w, ch) + (if ch == '[' then 1 else 0) + (if ch == ']' then 1 else 0)
  {
    DigitsHaveNoMarks(DimText(d), ch);
    CountConcat(w, "[", ch);
    CountConcat(w + "[", DimText(d), ch);
    CountConcat(w + "[" + DimText(d), "]", ch);
  }

  /** What one layer adds to the count of one punctuation character. */
  lemma LayerCount(s: seq<Layer>, i: nat, name: string, ch: char)
    requires i < |s|
    requires ch == '*' || ch == '[' || ch == '(' || ch == ')'
    ensures Count(ApplyLayer(s, i, name), ch) == Count(name, ch)
      + (if ch == '*' && s[i].PointerLayer? then 1 else 0)
      + (if ch == '[' && s[i].ArrayLayer? then 1 else 0)
      + (if (ch == '(' || ch == ')') && KindChange(s, i) then 1 else 0)
  {
    var wrapped := if KindChange(s, i) then "(" + name + ")" else name;
    if wrapped != name {
      WrapCounts(name, ch);
    }
    match s[i]
    case PointerLayer =>
      StarCounts(wrapped, ch);
    case ArrayLayer(d) =>
      BracketCounts(wrapped, d, ch);
  }

  /** What one layer adds to each character count. */
  lemma LayerCounts(s: seq<Layer>, i: nat, name: string)
    requires i < |s|
    ensures Count(ApplyLayer(s, i, name), '*') == Count(name, '*') + (if s[i].PointerLayer? then 1 else 0)
    ensures Count(ApplyLayer(s, i, name), '[') == Count(name, '[') + (if s[i].ArrayLayer? then 1 else 0)
    ensures Count(ApplyLayer(s, i, name), '(') == Count(name, '(') + (if KindChange(s, i) then 1 else 0)
    ensures Count(ApplyLayer(s, i, name), ')') == Count(name, ')') + (if KindChange(s, i) then 1 else 0)
  {
    LayerCount(s, i, name, '*');
    LayerCount(s, i, name, '[');
    LayerCount(s, i, name, '(');
    LayerCount(s, i, name, ')');
  }

  /** A type name with the (possibly rewritten) declared name. */
  datatype Decl = Decl(typeName: string, declarator: Ident)

  /** `apply_modifier` reads the name only when it has a layer to apply
      to a base it can name. */
  predicate NeedsName(t: Node) {
    (t.Pointer? || t.Array?) && HandledBase(t)
  }

  /** `apply_modifier(node, name)`: the base's name, and the name wrapped
      in what the layers put in front of it and after it. */
  function ApplyModifier(t: Node, name: Ident): (r: Decl)
    requires NeedsName(t) ==> name.Some?
    ensures !HandledBase(t) ==> r == Decl(Undefined, Some(Undefined))
    ensures HandledBase(t) ==> r.typeName == BaseName(BaseOf(t))
    ensures HandledBase(t) && |Layers(t)| == 0 ==> r.declarator == name
    ensures NeedsName(t) ==> r.declarator == Some(Prefix(Layers(t), 0) + name.value + Suffix(Layers(t), 0))
  {
    var stack := Layers(t);
    var base := BaseOf(t);
    if !(base.Typedef? || base.Primitive?) then Decl(Undefined, Some(Undefined))
    else if |stack| == 0 then Decl(BaseName(base), name)
    else Decl(BaseName(base), Some(Fold(stack, 0, name.value)))
  }

  /** Each pointer adds one `*` to the declarator, each array one `[`, and
      each change of layer kind one pair of parentheses. */
  lemma ApplyModifierCounts(t: Node, name: string)
    requires NeedsName(t)
    ensures var d := ApplyModifier(t, Some(name)).declarator.value;
      && Count(d, '*') == Count(name, '*') + PointerCount(Layers(t))
      && Count(d, '[') == Count(name, '[') + ArrayCount(Layers(t))
      && Count(d, '(') == Count(name, '(') + KindChanges(Layers(t), 0)
      && Count(d, ')') == Count(name, ')') + KindChanges(Layers(t), 0)
  {
    var stack := Layers(t);
    assert stack[0..] == stack;
    assert ApplyModifier(t, Some(name)).declarator.value == Fold(stack, 0, name);
  }

  /** A single pointer layer over a nameable base puts `*` before the
      name. */
  lemma PointerSpelling(l: Option<Location>, b: Node, name: string)
    requires b.Typedef? || b.Primitive?
    ensures ApplyModifier(Pointer(l, b), Some(name)) == Decl(BaseName(b), Some("*" + name))
    ensures TypedName(Pointer(l, b), Some(name)) == Decl(BaseName(b), Some("*" + name))
  {
    var s := [PointerLayer];
    assert Layers(Pointer(l, b)) == s;
    assert ApplyLayer(s, 0, name) == "*" + name;
    assert BaseOf(Pointer(l, b)) == b;
    assert Fold(s, 1, "*" + name) == "*" + name;
    assert Fold(s, 0, name) == "*" + name;
  }

  /** The type-and-name spelling shared by fields, arguments and return
      types: only a pointer/array type rewrites the name, through
      `apply_modifier`; the type is named by the base `apply_modifier`
      names, or by the placeholder when there is none. */
  function TypedName(t: Node, id: Ident): (r: Decl)
    requires NeedsName(t) ==> id.Some?
    ensures !(t.Pointer? || t.Array?) ==> r.declarator == id
    ensures t.Pointer? || t.Array? ==> r == ApplyModifier(t, id)
    ensures HandledBase(t) ==> r.typeName == BaseName(BaseOf(t))
    ensures !HandledBase(t) ==> r.typeName == Undefined
  {
    match t
    case Typedef(_, tid, _) => Decl(Show(tid), id)
    case Primitive(p) => Decl(CName(p), id)
    case Pointer(_, _) => ApplyModifier(t, id)
    case Array(_, _, _) => ApplyModifier(t, id)
    case _ => Decl(Undefined, id)
  }

  /** `'%s %s' % (c_name, name)`. */
  function DeclString(d: Decl): string {
    d.typeName + " " + Show(d.declarator)
  }
}
