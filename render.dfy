/** `render_card` in src/render.rs: the card is resolved, its strings are run
    through the template renderer with the handlebars context, its bindings
    are applied, and the result is analysed and validated. */
module Render {
  import opened Wrappers
  import opened JsonValue
  import opened Model
  import opened Binding
  import opened Rewrite
  import opened Template
  import opened Assets
  import Features
  import Validator

  /** What lies outside the modelled files: the environment and loader of
      the asset lookup, the JSON text codec, the expression engine and the
      template library. */
  datatype Host = Host(env: Environment, codec: Codec, engine: Engine, render: Renderer)

  /** `RenderOutcome`: the final card, its feature summary and its issues. */
  datatype RenderOutcome = RenderOutcome(card: Json, features: FeatureSummary, issues: seq<ValidationIssue>)

  /** The card after the template pass and the binding pass. */
  function Transformed(card: Json, inv: Invocation, host: Host): Result<Json, ComponentError>
  {
    match Rendered(card, host.render, HandlebarsContext(inv))
    case Err(e) => Err(e)
    case Ok(templated) => Ok(Bound(templated, ContextOf(inv), host.codec, host.engine))
  }

  /** What `render_card` returns. */
  function RenderedCard(inv: Invocation, host: Host): Result<RenderOutcome, ComponentError>
  {
    match ResolvedCard(inv.cardSource, inv.cardSpec, host.env)
    case Err(e) => Err(e)
    case Ok(card) =>
      match Transformed(card, inv, host)
      case Err(e) => Err(e)
      case Ok(final) => Ok(RenderOutcome(final, Features.Features(final), Validator.CardIssues(final)))
  }

  /** `render_card`. */
  method RenderCard(inv: Invocation, host: Host) returns (r: Result<RenderOutcome, ComponentError>)
    ensures r == RenderedCard(inv, host)
  {
    var resolved := ResolveCard(inv.cardSource, inv.cardSpec, host.env);
    if resolved.Err? {
      return Err(resolved.error);
    }
    var context := BuildHandlebarsContext(inv);
    var templated := RenderHandlebarsValue(resolved.value, host.render, context);
    if templated.Err? {
      return Err(templated.error);
    }
    var card := ApplyBindings(templated.value, ContextOf(inv), host.codec, host.engine);
    var features := Features.AnalyzeFeatures(card);
    var issues := Validator.ValidateCard(card);
    r := Ok(RenderOutcome(card, features, issues));
  }

  /** Shapes compose: a rendering that keeps strings as strings followed by
      a rewrite that may replace strings keeps the shape of the first tree. */
  lemma {:induction false} SameShapeThen(a: Json, b: Json, c: Json)
    requires SameShape(a, b, true) && SameShape(b, c, false)
    ensures SameShape(a, c, false)
    decreases a
  {
    match a
    case JArr(xs) =>
      forall i | 0 <= i < |xs| ensures SameShape(xs[i], c.items[i], false) {
        SameShapeThen(xs[i], b.items[i], c.items[i]);
      }
    case JObj(fs) =>
      KeysLength(fs);
      KeysLength(b.fields);
      KeysLength(c.fields);
      forall i | 0 <= i < |fs| ensures SameShape(fs[i].val, c.fields[i].val, false) {
        SameShapeThen(fs[i].val, b.fields[i].val, c.fields[i].val);
      }
    case _ =>
  }

  lemma KeysLength(fs: seq<Field>)
    ensures |Keys(fs)| == |fs|
  {
  }

  /** Rendering fails exactly when the card cannot be resolved or a string
      fails in the template pass, with that error; otherwise the final card
      has the resolved card's shape (only strings differ), and the summary
      and the issues are those of the final card. */
  lemma RenderCardSpec(inv: Invocation, host: Host)
    ensures ResolvedCard(inv.cardSource, inv.cardSpec, host.env).Err? ==>
              RenderedCard(inv, host) == Err(ResolvedCard(inv.cardSource, inv.cardSpec, host.env).error)
    ensures (ResolvedCard(inv.cardSource, inv.cardSpec, host.env).Ok?
             && Rendered(ResolvedCard(inv.cardSource, inv.cardSpec, host.env).value, host.render, HandlebarsContext(inv)).Err?) ==>
              RenderedCard(inv, host)
                == Err(Rendered(ResolvedCard(inv.cardSource, inv.cardSpec, host.env).value, host.render, HandlebarsContext(inv)).error)
    ensures RenderedCard(inv, host).Ok? ==>
              var out := RenderedCard(inv, host).value;
              ResolvedCard(inv.cardSource, inv.cardSpec, host.env).Ok?
              && SameShape(ResolvedCard(inv.cardSource, inv.cardSpec, host.env).value, out.card, false)
              && out.features == Features.Features(out.card) && out.issues == Validator.CardIssues(out.card)
  {
    var resolved := ResolvedCard(inv.cardSource, inv.cardSpec, host.env);
    if resolved.Ok? {
      var templated := Rendered(resolved.value, host.render, HandlebarsContext(inv));
      if templated.Ok? {
        RenderedKeepsShape(resolved.value, host.render, HandlebarsContext(inv));
        BoundKeepsShape(templated.value, ContextOf(inv), host.codec, host.engine);
        SameShapeThen(resolved.value, templated.value, Bound(templated.value, ContextOf(inv), host.codec, host.engine));
      }
    }
  }
}
