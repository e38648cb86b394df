/** The two tree rewrites of src/render.rs: `apply_bindings`, which resolves
    the bindings in every string of a card, and `render_handlebars_value`,
    which runs every string through the template renderer. The source
    rewrites the tree in place through `&mut Value`; here each method returns
    the rewritten tree and is proved equal to a function over the input. */
module Rewrite {
  import opened Wrappers
  import opened Text
  import opened JsonValue
  import opened Model
  import opened Binding

  /** The expression engine (`ExpressionEngine::eval`) and `stringify_value`,
      which live outside the modelled files. */
  datatype Engine = Engine(eval: (string, BindingContext) -> Option<Json>, stringify: Json -> string)

  /** Two trees have the same shape: the same array lengths, the same object
      keys in the same order, the same non-string scalars. A string may turn
      into any value, unless `stringsStay` asks that it remain a string. */
  predicate SameShape(a: Json, b: Json, stringsStay: bool)
    decreases a
  {
    match a
    case JStr(_) => !stringsStay || b.JStr?
    case JArr(xs) =>
      b.JArr? && |b.items| == |xs| &&
      forall i :: 0 <= i < |xs| ==> SameShape(xs[i], b.items[i], stringsStay)
    case JObj(fs) =>
      b.JObj? && Keys(b.fields) == Keys(fs) &&
      forall i :: 0 <= i < |fs| ==> SameShape(fs[i].val, b.fields[i].val, stringsStay)
    case _ => b == a
  }

  /** No string anywhere in the tree contains `@{` or `${`. */
  predicate NoMarkers(v: Json)
    decreases v
  {
    match v
    case JStr(s) => !Contains(s, "@{") && !Contains(s, "${")
    case JArr(xs) => forall i :: 0 <= i < |xs| ==> NoMarkers(xs[i])
    case JObj(fs) => forall i :: 0 <= i < |fs| ==> NoMarkers(fs[i].val)
    case _ => true
  }

  // ---------------------------------------------------------------------------
  // `apply_bindings`
  // ---------------------------------------------------------------------------

  /** What `apply_bindings` makes of a string: a whole-string placeholder whose
      path resolves becomes the resolved value itself; otherwise a whole-string
      `${expr}` the engine evaluates becomes that string, or the stringified
      value; otherwise every placeholder inside is substituted. */
  function BoundString(text: string, ctx: BindingContext, codec: Codec, engine: Engine): Json
  {
    var single := match ExtractSinglePlaceholder(text)
      case Some(path) => Lookup(ctx, path, codec)
      case None => None;
    var evaluated := match ExtractExpression(text)
      case Some(expr) => engine.eval(expr, ctx)
      case None => None;
    match single
    case Some(resolved) => resolved
    case None =>
      match evaluated
      case Some(JStr(s)) => JStr(s)
      case Some(other) => JStr(engine.stringify(other))
      case None => JStr(Substituted(text, Replacer(ctx, codec)))
  }

  /** `apply_bindings` over a whole tree: strings are rewritten, arrays and
      object values are visited, other scalars are left alone. */
  function Bound(v: Json, ctx: BindingContext, codec: Codec, engine: Engine): Json
    decreases v
  {
    match v
    case JStr(text) => BoundString(text, ctx, codec, engine)
    case JArr(xs) => JArr(seq(|xs|, i requires 0 <= i < |xs| => Bound(xs[i], ctx, codec, engine)))
    case JObj(fs) => JObj(seq(|fs|, i requires 0 <= i < |fs| => Field(fs[i].key, Bound(fs[i].val, ctx, codec, engine))))
    case _ => v
  }

  /** The string case of `apply_bindings`, with the placeholder scanner run as
      the loop `replace_placeholders` is. */
  method BindString(text: string, ctx: BindingContext, codec: Codec, engine: Engine) returns (r: Json)
    ensures r == BoundString(text, ctx, codec, engine)
  {
    var single := ExtractSinglePlaceholder(text);
    if single.Some? {
      var resolved := Lookup(ctx, single.value, codec);
      if resolved.Some? {
        return resolved.value;
      }
    }
    var expr := ExtractExpression(text);
    if expr.Some? {
      var resolved := engine.eval(expr.value, ctx);
      if resolved.Some? {
        if resolved.value.JStr? {
          return resolved.value;
        }
        return JStr(engine.stringify(resolved.value));
      }
    }
    var replaced := ReplacePlaceholders(text, ctx, codec);
    r := JStr(replaced);
  }

  /** `apply_bindings`: every array item and every object value is rewritten
      in turn, keys staying where they are. */
  method ApplyBindings(v: Json, ctx: BindingContext, codec: Codec, engine: Engine) returns (r: Json)
    ensures r == Bound(v, ctx, codec, engine)
    decreases v
  {
    match v {
      case JStr(text) =>
        r := BindString(text, ctx, codec, engine);
      case JArr(xs) =>
        var items := xs;
        for i := 0 to |xs|
          invariant |items| == |xs|
          invariant forall j :: 0 <= j < i ==> items[j] == Bound(xs[j], ctx, codec, engine)
        {
          var item := ApplyBindings(xs[i], ctx, codec, engine);
          items := items[i := item];
        }
        r := JArr(items);
      case JObj(fs) =>
        var fields := fs;
        for i := 0 to |fs|
          invariant |fields| == |fs|
          invariant forall j :: 0 <= j < i ==> fields[j] == Field(fs[j].key, Bound(fs[j].val, ctx, codec, engine))
        {
          var entry := ApplyBindings(fs[i].val, ctx, codec, engine);
          fields := fields[i := Field(fs[i].key, entry)];
        }
        r := JObj(fields);
      case _ =>
        r := v;
    }
  }

  /** A string only stops being a string through a whole-string placeholder
      whose lookup found that very value. */
  lemma BoundNonString(text: string, ctx: BindingContext, codec: Codec, engine: Engine)
    ensures !BoundString(text, ctx, codec, engine).JStr? ==>
      ExtractSinglePlaceholder(text).Some? &&
      Lookup(ctx, ExtractSinglePlaceholder(text).value, codec) == Some(BoundString(text, ctx, codec, engine))
  {
  }

  /** A string with no `@{` and no `${` in it comes back unchanged. */
  lemma PlainStringKept(text: string, ctx: BindingContext, codec: Codec, engine: Engine)
    requires !Contains(text, "@{") && !Contains(text, "${")
    ensures BoundString(text, ctx, codec, engine) == JStr(text)
  {
    EnclosedOccurs(text, "@{");
    EnclosedOccurs(text, "${");
    NoMarkerUnchanged(text, Replacer(ctx, codec));
  }

  /** A whole-string form `prefix … }` contains its prefix. */
  lemma EnclosedOccurs(input: string, prefix: string)
    requires |prefix| == 2
    ensures Enclosed(input, prefix).Some? ==> Contains(input, prefix)
  {
    if Enclosed(input, prefix).Some? {
      var a := TrimStart(input);
      var t := TrimEnd(a);
      var k := |input| - |a|;
      assert t[..2] == prefix;
      assert input[k..k + 2] == a[..2] == t[..2];
      assert OccursAt(input, prefix, k);
    }
  }

  /** `apply_bindings` keeps the tree's shape; only strings change. */
  lemma {:induction false} BoundKeepsShape(v: Json, ctx: BindingContext, codec: Codec, engine: Engine)
    ensures SameShape(v, Bound(v, ctx, codec, engine), false)
    decreases v
  {
    match v
    case JArr(xs) =>
      forall i | 0 <= i < |xs| ensures SameShape(xs[i], Bound(v, ctx, codec, engine).items[i], false) {
        BoundKeepsShape(xs[i], ctx, codec, engine);
      }
    case JObj(fs) =>
      var r := Bound(v, ctx, codec, engine).fields;
      forall i | 0 <= i < |fs| ensures SameShape(fs[i].val, r[i].val, false) {
        BoundKeepsShape(fs[i].val, ctx, codec, engine);
      }
      KeysPointwise(r, fs);
    case _ =>
  }

  /** Field lists whose keys agree position by position have the same keys. */
  lemma KeysPointwise(a: seq<Field>, b: seq<Field>)
    requires |a| == |b| && forall i :: 0 <= i < |a| ==> a[i].key == b[i].key
    ensures Keys(a) == Keys(b)
  {
  }

  /** A tree without any placeholder marker is left exactly as it is. */
  lemma {:induction false} BoundPlainTree(v: Json, ctx: BindingContext, codec: Codec, engine: Engine)
    requires NoMarkers(v)
    ensures Bound(v, ctx, codec, engine) == v
    decreases v
  {
    match v
    case JStr(text) =>
      PlainStringKept(text, ctx, codec, engine);
    case JArr(xs) =>
      forall i | 0 <= i < |xs| ensures Bound(xs[i], ctx, codec, engine) == xs[i] {
        BoundPlainTree(xs[i], ctx, codec, engine);
      }
      assert Bound(v, ctx, codec, engine).items == xs;
    case JObj(fs) =>
      forall i | 0 <= i < |fs| ensures Bound(fs[i].val, ctx, codec, engine) == fs[i].val {
        BoundPlainTree(fs[i].val, ctx, codec, engine);
      }
      assert Bound(v, ctx, codec, engine).fields == fs;
    case _ =>
  }

  // ---------------------------------------------------------------------------
  // `render_handlebars_value`
  // ---------------------------------------------------------------------------

  /** `Handlebars::render_template` on one string with the context: the
      rendered text or the library's error text. */
  type Renderer = (string, Json) -> Result<string, string>

  /** One string through the renderer; a failure becomes `InvalidInput` with
      the text `handlebars: ` before the library's message. */
  function RenderedString(text: string, render: Renderer, context: Json): Result<Json, ComponentError>
  {
    match render(text, context)
    case Ok(t) => Ok(JStr(t))
    case Err(e) => Err(InvalidInput("handlebars: " + e))
  }

  /** `render_handlebars_value` over a whole tree: the first failing string,
      in visiting order, is the error; otherwise every string is rendered. */
  function Rendered(v: Json, render: Renderer, context: Json): Result<Json, ComponentError>
    decreases v, 1
  {
    match v
    case JStr(text) => RenderedString(text, render, context)
    case JArr(xs) =>
      (match RenderedItems(v, 0, render, context)
       case Ok(items) => Ok(JArr(items))
       case Err(e) => Err(e))
    case JObj(fs) =>
      (match RenderedFields(v, 0, render, context)
       case Ok(fields) => Ok(JObj(fields))
       case Err(e) => Err(e))
    case _ => Ok(v)
  }

  /** The items of array `v` from `i` on, rendered in order. */
  function RenderedItems(v: Json, i: nat, render: Renderer, context: Json): (r: Result<seq<Json>, ComponentError>)
    requires v.JArr? && i <= |v.items|
    ensures r.Ok? ==> |r.value| == |v.items| - i
    decreases v, 0, |v.items| - i
  {
    if i == |v.items| then Ok([])
    else
      match Rendered(v.items[i], render, context)
      case Err(e) => Err(e)
      case Ok(item) =>
        match RenderedItems(v, i + 1, render, context)
        case Err(e) => Err(e)
        case Ok(rest) => Ok([item] + rest)
  }

  /** The fields of object `v` from `i` on, values rendered in order. */
  function RenderedFields(v: Json, i: nat, render: Renderer, context: Json): (r: Result<seq<Field>, ComponentError>)
    requires v.JObj? && i <= |v.fields|
    ensures r.Ok? ==> |r.value| == |v.fields| - i
    decreases v, 0, |v.fields| - i
  {
    if i == |v.fields| then Ok([])
    else
      match Rendered(v.fields[i].val, render, context)
      case Err(e) => Err(e)
      case Ok(val) =>
        match RenderedFields(v, i + 1, render, context)
        case Err(e) => Err(e)
        case Ok(rest) => Ok([Field(v.fields[i].key, val)] + rest)
  }

  /** `render_handlebars_value`: strings are rendered, arrays and object values
      visited in order, and the first failure ends the walk. */
  method RenderHandlebarsValue(v: Json, render: Renderer, context: Json) returns (r: Result<Json, ComponentError>)
    ensures r == Rendered(v, render, context)
    decreases v
  {
    match v {
      case JStr(text) =>
        var rendered := render(text, context);
        if rendered.Err? {
          return Err(InvalidInput("handlebars: " + rendered.error));
        }
        r := Ok(JStr(rendered.value));
      case JArr(xs) =>
        var items := xs;
        var i := 0;
        PrefixedNil(RenderedItems(v, 0, render, context));
        while i < |xs|
          invariant 0 <= i <= |xs| && |items| == |xs|
          invariant RenderedItems(v, 0, render, context) == Prefixed(items[..i], RenderedItems(v, i, render, context))
        {
          var item := RenderHandlebarsValue(xs[i], render, context);
          if item.Err? {
            return Err(item.error);
          }
          ItemStep(v, i, render, context, items, item.value);
          items := items[i := item.value];
          i := i + 1;
        }
        assert items[..i] + [] == items;
        r := Ok(JArr(items));
      case JObj(fs) =>
        var fields := fs;
        var i := 0;
        PrefixedNil(RenderedFields(v, 0, render, context));
        while i < |fs|
          invariant 0 <= i <= |fs| && |fields| == |fs|
          invariant RenderedFields(v, 0, render, context) == Prefixed(fields[..i], RenderedFields(v, i, render, context))
        {
          var entry := RenderHandlebarsValue(fs[i].val, render, context);
          if entry.Err? {
            return Err(entry.error);
          }
          FieldStep(v, i, render, context, fields, entry.value);
          fields := fields[i := Field(fs[i].key, entry.value)];
          i := i + 1;
        }
        assert fields[..i] + [] == fields;
        r := Ok(JObj(fields));
      case _ =>
        r := Ok(v);
    }
  }

  lemma ItemStep(v: Json, i: nat, render: Renderer, context: Json, items: seq<Json>, item: Json)
    requires v.JArr? && i < |v.items| == |items| && Rendered(v.items[i], render, context) == Ok(item)
    ensures Prefixed(items[..i], RenderedItems(v, i, render, context))
      == Prefixed(items[i := item][..i + 1], RenderedItems(v, i + 1, render, context))
  {
    assert items[i := item][..i + 1] == items[..i] + [item];
    match RenderedItems(v, i + 1, render, context)
    case Ok(rest) => assert items[..i] + ([item] + rest) == items[..i] + [item] + rest;
    case Err(_) =>
  }

  lemma FieldStep(v: Json, i: nat, render: Renderer, context: Json, fields: seq<Field>, val: Json)
    requires v.JObj? && i < |v.fields| == |fields| && Rendered(v.fields[i].val, render, context) == Ok(val)
    ensures Prefixed(fields[..i], RenderedFields(v, i, render, context))
      == Prefixed(fields[i := Field(v.fields[i].key, val)][..i + 1], RenderedFields(v, i + 1, render, context))
  {
    var f := Field(v.fields[i].key, val);
    assert fields[i := f][..i + 1] == fields[..i] + [f];
    match RenderedFields(v, i + 1, render, context)
    case Ok(rest) => assert fields[..i] + ([f] + rest) == fields[..i] + [f] + rest;
    case Err(_) =>
  }

  lemma PrefixedNil<T>(tail: Result<seq<T>, ComponentError>)
    ensures Prefixed([], tail) == tail
  {
    if tail.Ok? {
      assert [] + tail.value == tail.value;
    }
  }

  /** A rendered tail with the already rendered head put in front. */
  function Prefixed<T>(head: seq<T>, tail: Result<seq<T>, ComponentError>): Result<seq<T>, ComponentError>
  {
    match tail
    case Ok(rest) => Ok(head + rest)
    case Err(e) => Err(e)
  }

  /** The strings of a tree in the order the walks visit them. */
  function Leaves(v: Json): seq<string>
    decreases v, 1
  {
    match v
    case JStr(s) => [s]
    case JArr(_) => ItemLeaves(v, 0)
    case JObj(_) => FieldLeaves(v, 0)
    case _ => []
  }

  function ItemLeaves(v: Json, i: nat): seq<string>
    requires v.JArr? && i <= |v.items|
    decreases v, 0, |v.items| - i
  {
    if i == |v.items| then [] else Leaves(v.items[i]) + ItemLeaves(v, i + 1)
  }

  function FieldLeaves(v: Json, i: nat): seq<string>
    requires v.JObj? && i <= |v.fields|
    decreases v, 0, |v.fields| - i
  {
    if i == |v.fields| then [] else Leaves(v.fields[i].val) + FieldLeaves(v, i + 1)
  }

  /** The error of the first string, in order, that the renderer rejects. */
  function FirstFailure(ss: seq<string>, render: Renderer, context: Json): Option<ComponentError>
  {
    if |ss| == 0 then None
    else
      match RenderedString(ss[0], render, context)
      case Err(e) => Some(e)
      case Ok(_) => FirstFailure(ss[1..], render, context)
  }

  function ErrorOf<T>(r: Result<T, ComponentError>): Option<ComponentError>
  {
    match r
    case Err(e) => Some(e)
    case Ok(_) => None
  }

  lemma {:induction false} FirstFailureAppend(a: seq<string>, b: seq<string>, render: Renderer, context: Json)
    ensures FirstFailure(a + b, render, context)
      == if FirstFailure(a, render, context).Some? then FirstFailure(a, render, context) else FirstFailure(b, render, context)
  {
    if |a| > 0 {
      assert (a + b)[0] == a[0] && (a + b)[1..] == a[1..] + b;
      FirstFailureAppend(a[1..], b, render, context);
    } else {
      assert a + b == b;
    }
  }

  /** `render_handlebars_value` fails exactly when some string fails to
      render, and then with the error of the first such string. */
  lemma {:induction false} RenderedFailsAtFirst(v: Json, render: Renderer, context: Json)
    ensures ErrorOf(Rendered(v, render, context)) == FirstFailure(Leaves(v), render, context)
    decreases v, 1
  {
    match v
    case JStr(s) =>
      assert [s][1..] == [];
    case JArr(_) => ItemsFailAtFirst(v, 0, render, context);
    case JObj(_) => FieldsFailAtFirst(v, 0, render, context);
    case _ =>
  }

  lemma {:induction false} ItemsFailAtFirst(v: Json, i: nat, render: Renderer, context: Json)
    requires v.JArr? && i <= |v.items|
    ensures ErrorOf(RenderedItems(v, i, render, context)) == FirstFailure(ItemLeaves(v, i), render, context)
    decreases v, 0, |v.items| - i
  {
    if i < |v.items| {
      RenderedFailsAtFirst(v.items[i], render, context);
      ItemsFailAtFirst(v, i + 1, render, context);
      FirstFailureAppend(Leaves(v.items[i]), ItemLeaves(v, i + 1), render, context);
    }
  }

  lemma {:induction false} FieldsFailAtFirst(v: Json, i: nat, render: Renderer, context: Json)
    requires v.JObj? && i <= |v.fields|
    ensures ErrorOf(RenderedFields(v, i, render, context)) == FirstFailure(FieldLeaves(v, i), render, context)
    decreases v, 0, |v.fields| - i
  {
    if i < |v.fields| {
      RenderedFailsAtFirst(v.fields[i].val, render, context);
      FieldsFailAtFirst(v, i + 1, render, context);
      FirstFailureAppend(Leaves(v.fields[i].val), FieldLeaves(v, i + 1), render, context);
    }
  }

  /** A successful `render_handlebars_value` keeps the tree's shape, and
      strings stay strings. */
  lemma {:induction false} RenderedKeepsShape(v: Json, render: Renderer, context: Json)
    requires Rendered(v, render, context).Ok?
    ensures SameShape(v, Rendered(v, render, context).value, true)
    decreases v, 1
  {
    match v
    case JArr(xs) =>
      var r := Rendered(v, render, context).value.items;
      forall j | 0 <= j < |xs| ensures SameShape(xs[j], r[j], true) {
        ItemRendered(v, 0, j, render, context);
        RenderedKeepsShape(xs[j], render, context);
      }
    case JObj(fs) =>
      var r := Rendered(v, render, context).value.fields;
      forall j | 0 <= j < |fs| ensures SameShape(fs[j].val, r[j].val, true) && r[j].key == fs[j].key {
        FieldRendered(v, 0, j, render, context);
        RenderedKeepsShape(fs[j].val, render, context);
      }
      KeysPointwise(r, fs);
    case _ =>
  }

  /** In a successful rendering of the items from `i` on, item `j` is the
      rendering of the `j`-th input item. */
  lemma {:induction false} ItemRendered(v: Json, i: nat, j: nat, render: Renderer, context: Json)
    requires v.JArr? && i <= j < |v.items| && RenderedItems(v, i, render, context).Ok?
    ensures Rendered(v.items[j], render, context).Ok?
    ensures RenderedItems(v, i, render, context).value[j - i] == Rendered(v.items[j], render, context).value
    decreases j - i
  {
    if i < j {
      ItemRendered(v, i + 1, j, render, context);
    }
  }

  lemma {:induction false} FieldRendered(v: Json, i: nat, j: nat, render: Renderer, context: Json)
    requires v.JObj? && i <= j < |v.fields| && RenderedFields(v, i, render, context).Ok?
    ensures Rendered(v.fields[j].val, render, context).Ok?
    ensures RenderedFields(v, i, render, context).value[j - i]
      == Field(v.fields[j].key, Rendered(v.fields[j].val, render, context).value)
    decreases j - i
  {
    if i < j {
      FieldRendered(v, i + 1, j, render, context);
    }
  }
}
