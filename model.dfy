/** The component's data model (src/model.rs, src/error.rs): the invocation it
    receives, the interaction it replays, the operations and the result it
    returns, with the field names, aliases and defaults of their JSON form. */
module Model {
  import opened Wrappers
  import opened JsonValue

  /** Where the card comes from; a missing field means `Inline`. */
  datatype CardSource = Inline | Asset | Catalog

  /** How the card is located. Every field is optional. */
  datatype CardSpec = CardSpec(
    inlineJson: Option<Json>,
    assetPath: Option<string>,
    catalogName: Option<string>,
    templateParams: Option<Json>,
    assetRegistry: Option<map<string, string>>)

  /** What an invocation asks for; a missing field means `RenderAndValidate`. */
  datatype InvocationMode = Render | Validate | RenderAndValidate

  /** How strictly issues are treated; a missing field means `Warn`. */
  datatype ValidationMode = Off | Warn | Error

  /** The kind of user action replayed; PascalCase names in JSON. */
  datatype InteractionType = Submit | Execute | OpenUrl | ShowCard | ToggleVisibility

  datatype Interaction = Interaction(
    enabled: Option<bool>,
    interactionType: InteractionType,
    actionId: string,
    verb: Option<string>,
    rawInputs: Json,
    cardInstanceId: string,
    metadata: Json)

  datatype Invocation = Invocation(
    cardSource: CardSource,
    cardSpec: CardSpec,
    nodeId: Option<string>,
    payload: Json,
    session: Json,
    state: Json,
    interaction: Option<Interaction>,
    mode: InvocationMode,
    validationMode: ValidationMode,
    envelope: Option<Json>)

  /** The action type reported in an event, one per interaction type. */
  datatype ActionType =
    | SubmitAction
    | ExecuteAction
    | OpenUrlAction
    | ShowCardAction
    | ToggleVisibilityAction

  datatype ActionEvent = ActionEvent(
    actionType: ActionType,
    actionId: string,
    verb: Option<string>,
    route: Option<string>,
    inputs: Json,
    cardId: string,
    cardInstanceId: string,
    subcardId: Option<string>,
    metadata: Json)

  /** A change to the state document, addressed by a dotted path. */
  datatype StateUpdateOp =
    | Set(path: string, value: Json)
    | Merge(path: string, value: Json)
    | Delete(path: string)

  /** A change to the host session. */
  datatype SessionUpdateOp =
    | SetRoute(route: string)
    | SetAttribute(key: string, value: Json)
    | DeleteAttribute(key: string)
    | PushCardStack(cardId: string)
    | PopCardStack

  datatype FeatureSummary = FeatureSummary(
    version: Option<string>,
    usedElements: seq<string>,
    usedActions: seq<string>,
    usesShowCard: bool,
    usesToggleVisibility: bool,
    usesMedia: bool,
    usesAuth: bool,
    requiresFeatures: Json)

  datatype ValidationIssue = ValidationIssue(code: string, message: string, path: string)

  datatype TelemetryEvent = TelemetryEvent(name: string, properties: Json)

  datatype CardResult = CardResult(
    renderedCard: Option<Json>,
    event: Option<ActionEvent>,
    stateUpdates: seq<StateUpdateOp>,
    sessionUpdates: seq<SessionUpdateOp>,
    cardFeatures: FeatureSummary,
    validationIssues: seq<ValidationIssue>,
    telemetryEvents: seq<TelemetryEvent>)

  /** The component's failures. `InteractionInvalid` is raised by the
      interaction handler; the enum shown in src/error.rs lacks it. */
  datatype ComponentError =
    | InvalidInput(msg: string)
    | SerdeError(msg: string)
    | IoError(msg: string)
    | AssetError(msg: string)
    | StateStoreError(msg: string)
    | InteractionInvalid(msg: string)

  /** The error's display text. */
  function Display(e: ComponentError): (text: string)
    ensures |text| > |e.msg| && text[|text| - |e.msg|..] == e.msg
  {
    match e
    case InvalidInput(m) => "invalid input: " + m
    case SerdeError(m) => "serialization error: " + m
    case IoError(m) => "io error: " + m
    case AssetError(m) => "asset error: " + m
    case StateStoreError(m) => "state store error: " + m
    case InteractionInvalid(m) => "interaction invalid: " + m
  }

  // ---------------------------------------------------------------------------
  // Names of the enum variants in JSON.

  function CardSourceName(c: CardSource): string
  {
    match c
    case Inline => "inline"
    case Asset => "asset"
    case Catalog => "catalog"
  }

  function InvocationModeName(m: InvocationMode): string
  {
    match m
    case Render => "render"
    case Validate => "validate"
    case RenderAndValidate => "renderAndValidate"
  }

  function ValidationModeName(m: ValidationMode): string
  {
    match m
    case Off => "off"
    case Warn => "warn"
    case Error => "error"
  }

  function InteractionTypeName(t: InteractionType): string
  {
    match t
    case Submit => "Submit"
    case Execute => "Execute"
    case OpenUrl => "OpenUrl"
    case ShowCard => "ShowCard"
    case ToggleVisibility => "ToggleVisibility"
  }

  /** The variant name a JSON value spells out for a unit enum variant:
      serde takes the name as a string, or as the only key of an object
      whose value is null. */
  function VariantTag(v: Json): (r: Option<string>)
    ensures forall name :: r == Some(name) <==> v == JStr(name) || v == JObj([Field(name, JNull)])
  {
    match v
    case JStr(name) => Some(name)
    case JObj(fs) =>
      if |fs| == 1 && fs[0].val == JNull then
        assert fs == [Field(fs[0].key, JNull)];
        Some(fs[0].key)
      else None
    case _ => None
  }

  /** A JSON value naming a card source, if it names one. */
  function ParseCardSource(v: Json): (r: Option<CardSource>)
    ensures r.Some? ==> VariantTag(v) == Some(CardSourceName(r.value))
    ensures forall c :: VariantTag(v) == Some(CardSourceName(c)) ==> r == Some(c)
  {
    match VariantTag(v)
    case Some("inline") => Some(Inline)
    case Some("asset") => Some(Asset)
    case Some("catalog") => Some(Catalog)
    case _ => None
  }

  /** A JSON value naming an invocation mode, if it names one. */
  function ParseInvocationMode(v: Json): (r: Option<InvocationMode>)
    ensures r.Some? ==> VariantTag(v) == Some(InvocationModeName(r.value))
    ensures forall m :: VariantTag(v) == Some(InvocationModeName(m)) ==> r == Some(m)
  {
    match VariantTag(v)
    case Some("render") => Some(Render)
    case Some("validate") => Some(Validate)
    case Some("renderAndValidate") => Some(RenderAndValidate)
    case _ => None
  }

  /** A JSON value naming a validation mode, if it names one. */
  function ParseValidationMode(v: Json): (r: Option<ValidationMode>)
    ensures r.Some? ==> VariantTag(v) == Some(ValidationModeName(r.value))
    ensures forall m :: VariantTag(v) == Some(ValidationModeName(m)) ==> r == Some(m)
  {
    match VariantTag(v)
    case Some("off") => Some(Off)
    case Some("warn") => Some(Warn)
    case Some("error") => Some(Error)
    case _ => None
  }

  /** A JSON value naming an interaction type, if it names one. */
  function ParseInteractionType(v: Json): (r: Option<InteractionType>)
    ensures r.Some? ==> VariantTag(v) == Some(InteractionTypeName(r.value))
    ensures forall t :: VariantTag(v) == Some(InteractionTypeName(t)) ==> r == Some(t)
  {
    match VariantTag(v)
    case Some("Submit") => Some(Submit)
    case Some("Execute") => Some(Execute)
    case Some("OpenUrl") => Some(OpenUrl)
    case Some("ShowCard") => Some(ShowCard)
    case Some("ToggleVisibility") => Some(ToggleVisibility)
    case _ => None
  }

  /** Both spellings of a unit variant decode to it, for every enum. */
  lemma UnitVariantForms(m: InvocationMode, w: ValidationMode, c: CardSource, t: InteractionType)
    ensures ParseInvocationMode(JStr(InvocationModeName(m))) == Some(m)
    ensures ParseInvocationMode(JObj([Field(InvocationModeName(m), JNull)])) == Some(m)
    ensures ParseValidationMode(JStr(ValidationModeName(w))) == Some(w)
    ensures ParseValidationMode(JObj([Field(ValidationModeName(w), JNull)])) == Some(w)
    ensures ParseCardSource(JStr(CardSourceName(c))) == Some(c)
    ensures ParseCardSource(JObj([Field(CardSourceName(c), JNull)])) == Some(c)
    ensures ParseInteractionType(JStr(InteractionTypeName(t))) == Some(t)
    ensures ParseInteractionType(JObj([Field(InteractionTypeName(t), JNull)])) == Some(t)
  {
  }

  // ---------------------------------------------------------------------------
  // Decoding a JSON object into the structs, field by field.

  /** The value under a field that may also be spelt by its alias; both
      spellings at once is a duplicate field. */
  function Aliased(fs: seq<Field>, name: string, alias: string): (r: Result<Option<Json>, string>)
    ensures r.Err? <==> HasKey(fs, name) && HasKey(fs, alias)
    ensures r.Ok? && HasKey(fs, name) ==> r.value == Get(fs, name)
    ensures r.Ok? && !HasKey(fs, name) ==> r.value == Get(fs, alias)
  {
    match Get(fs, name)
    case Some(v) => if HasKey(fs, alias) then Err("duplicate field `" + name + "`") else Ok(Some(v))
    case None => Ok(Get(fs, alias))
  }

  /** A `#[serde(default)] Value` field: absent reads as null. */
  function ValueField(o: Option<Json>): Json
  {
    o.GetOr(JNull)
  }

  /** An `Option<String>` field: absent or null is `None`. */
  function OptString(o: Option<Json>, name: string): (r: Result<Option<string>, string>)
    ensures r.Ok? <==> o.None? || o.value.JNull? || o.value.JStr?
    ensures r.Ok? && r.value.Some? ==> o == Some(JStr(r.value.value))
  {
    match o
    case None => Ok(None)
    case Some(JNull) => Ok(None)
    case Some(JStr(s)) => Ok(Some(s))
    case Some(_) => Err("invalid type for `" + name + "`, expected a string")
  }

  /** An `Option<bool>` field: absent or null is `None`. */
  function OptBool(o: Option<Json>, name: string): (r: Result<Option<bool>, string>)
    ensures r.Ok? <==> o.None? || o.value.JNull? || o.value.JBool?
    ensures r.Ok? && r.value.Some? ==> o == Some(JBool(r.value.value))
  {
    match o
    case None => Ok(None)
    case Some(JNull) => Ok(None)
    case Some(JBool(b)) => Ok(Some(b))
    case Some(_) => Err("invalid type for `" + name + "`, expected a boolean")
  }

  /** An `Option<Value>` field: absent or null is `None`. */
  function OptValue(o: Option<Json>): (r: Option<Json>)
    ensures r.Some? <==> o.Some? && !o.value.JNull?
  {
    match o
    case Some(v) => if v.JNull? then None else Some(v)
    case None => None
  }

  /** A `String` field without a default: it must be present. */
  function ReqString(o: Option<Json>, name: string): (r: Result<string, string>)
    ensures r.Ok? <==> o.Some? && o.value.JStr?
    ensures r.Ok? ==> o == Some(JStr(r.value))
  {
    match o
    case Some(JStr(s)) => Ok(s)
    case None => Err("missing field `" + name + "`")
    case Some(_) => Err("invalid type for `" + name + "`, expected a string")
  }

  /** An enum field with a default: absent means the default. */
  function DefaultedEnum<T>(o: Option<Json>, parse: Json -> Option<T>, default: T, name: string): (r: Result<T, string>)
    ensures o.None? ==> r == Ok(default)
    ensures o.Some? ==> (r.Ok? <==> parse(o.value).Some?)
    ensures o.Some? && r.Ok? ==> r.value == parse(o.value).value
  {
    match o
    case None => Ok(default)
    case Some(v) =>
      match parse(v)
      case Some(t) => Ok(t)
      case None => Err("unknown variant for `" + name + "`")
  }

  /** A string-to-string JSON object as a registry of asset paths. */
  function StringMap(fs: seq<Field>): (r: Option<map<string, string>>)
    ensures r.Some? ==> forall k :: k in r.value ==> Get(fs, k) == Some(JStr(r.value[k]))
    ensures r.Some? ==> forall k :: HasKey(fs, k) ==> k in r.value
  {
    if |fs| == 0 then Some(map[])
    else
      match fs[0].val
      case JStr(s) =>
        (match StringMap(fs[1..])
         case Some(m) => Some(m[fs[0].key := s])
         case None => None)
      case _ => None
  }

  /** `CardSpec` from JSON: its field names are snake_case. */
  function DecodeCardSpec(v: Json): (r: Result<CardSpec, string>)
    ensures r.Ok? ==> v.JObj?
    ensures r.Ok? ==> r.value.inlineJson == OptValue(Member(v, "inline_json"))
    ensures r.Ok? ==> r.value.templateParams == OptValue(Member(v, "template_params"))
  {
    match v
    case JObj(fs) =>
      var assetPath :- OptString(Get(fs, "asset_path"), "asset_path");
      var catalogName :- OptString(Get(fs, "catalog_name"), "catalog_name");
      var registry :-
        match Get(fs, "asset_registry")
        case None => Ok(None)
        case Some(JNull) => Ok(None)
        case Some(JObj(entries)) =>
          (match StringMap(entries)
           case Some(m) => Ok(Some(m))
           case None => Err("invalid type for `asset_registry`, expected a string"))
        case Some(_) => Err("invalid type for `asset_registry`, expected a map");
      Ok(CardSpec(OptValue(Get(fs, "inline_json")), assetPath, catalogName,
                  OptValue(Get(fs, "template_params")), registry))
    case _ => Err("invalid type: expected struct CardSpec")
  }

  /** `CardInteraction` from JSON: camelCase names, snake_case aliases;
      the type, the action id and the card instance id are required. */
  function DecodeInteraction(v: Json): (r: Result<Interaction, string>)
    ensures r.Ok? ==> v.JObj?
    ensures r.Ok? ==> HasKey(v.fields, "actionId") || HasKey(v.fields, "action_id")
    ensures r.Ok? ==> HasKey(v.fields, "cardInstanceId") || HasKey(v.fields, "card_instance_id")
    ensures r.Ok? ==> HasKey(v.fields, "interactionType") || HasKey(v.fields, "interaction_type")
    ensures r.Ok? && !HasKey(v.fields, "rawInputs") && !HasKey(v.fields, "raw_inputs") ==> r.value.rawInputs == JNull
    ensures r.Ok? && !HasKey(v.fields, "metadata") ==> r.value.metadata == JNull
  {
    match v
    case JObj(fs) =>
      var enabled :- OptBool(Get(fs, "enabled"), "enabled");
      var typeField :- Aliased(fs, "interactionType", "interaction_type");
      var interactionType :-
        match typeField
        case None => Err("missing field `interactionType`")
        case Some(t) =>
          (match ParseInteractionType(t)
           case Some(it) => Ok(it)
           case None => Err("unknown variant for `interactionType`"));
      var actionField :- Aliased(fs, "actionId", "action_id");
      var actionId :- ReqString(actionField, "actionId");
      var verb :- OptString(Get(fs, "verb"), "verb");
      var rawField :- Aliased(fs, "rawInputs", "raw_inputs");
      var cardField :- Aliased(fs, "cardInstanceId", "card_instance_id");
      var cardInstanceId :- ReqString(cardField, "cardInstanceId");
      Ok(Interaction(enabled, interactionType, actionId, verb, ValueField(rawField),
                     cardInstanceId, ValueField(Get(fs, "metadata"))))
    case _ => Err("invalid type: expected struct CardInteraction")
  }

  /** An `Option<CardInteraction>` field: absent or null is `None`. */
  function OptInteraction(o: Option<Json>): (r: Result<Option<Interaction>, string>)
    ensures o.None? || o.value.JNull? ==> r == Ok(None)
    ensures o.Some? && !o.value.JNull? ==> (r.Ok? <==> DecodeInteraction(o.value).Ok?)
  {
    match o
    case None => Ok(None)
    case Some(JNull) => Ok(None)
    case Some(v) =>
      var i :- DecodeInteraction(v);
      Ok(Some(i))
  }

  /** `AdaptiveCardInvocation` from JSON. Every field has a default, so an
      object decodes unless a present field has the wrong form. */
  function DecodeInvocation(v: Json): (r: Result<Invocation, string>)
    ensures r.Ok? ==> v.JObj?
    ensures r.Ok? ==> r.value.payload == ValueField(Member(v, "payload"))
    ensures r.Ok? ==> r.value.session == ValueField(Member(v, "session"))
    ensures r.Ok? ==> r.value.state == ValueField(Member(v, "state"))
    ensures r.Ok? ==> r.value.envelope == OptValue(Member(v, "envelope"))
  {
    match v
    case JObj(fs) =>
      var sourceField :- Aliased(fs, "cardSource", "card_source");
      var cardSource :- DefaultedEnum(sourceField, ParseCardSource, Inline, "cardSource");
      var specField :- Aliased(fs, "cardSpec", "card_spec");
      var cardSpec :-
        match specField
        case None => Ok(DefaultCardSpec())
        case Some(s) => DecodeCardSpec(s);
      var nodeField :- Aliased(fs, "nodeId", "node_id");
      var nodeId :- OptString(nodeField, "nodeId");
      var interaction :- OptInteraction(Get(fs, "interaction"));
      var mode :- DefaultedEnum(Get(fs, "mode"), ParseInvocationMode, RenderAndValidate, "mode");
      var validationField :- Aliased(fs, "validationMode", "validation_mode");
      var validationMode :- DefaultedEnum(validationField, ParseValidationMode, Warn, "validationMode");
      Ok(Invocation(cardSource, cardSpec, nodeId, ValueField(Get(fs, "payload")),
                    ValueField(Get(fs, "session")), ValueField(Get(fs, "state")),
                    interaction, mode, validationMode, OptValue(Get(fs, "envelope"))))
    case _ => Err("invalid type: expected struct AdaptiveCardInvocation")
  }

  function DefaultCardSpec(): CardSpec
  {
    CardSpec(None, None, None, None, None)
  }

  /** `AdaptiveCardInvocation::default()`. */
  function DefaultInvocation(): Invocation
  {
    Invocation(Inline, DefaultCardSpec(), None, JNull, JNull, JNull, None, RenderAndValidate, Warn, None)
  }

  /** The defaults: an empty object decodes to the default invocation, whose
      card source is `Inline`, mode `RenderAndValidate` and validation mode `Warn`. */
  lemma EmptyObjectDecodesToDefaults()
    ensures DecodeInvocation(JObj([])) == Ok(DefaultInvocation())
    ensures DefaultInvocation().cardSource == Inline
    ensures DefaultInvocation().mode == RenderAndValidate
    ensures DefaultInvocation().validationMode == Warn
  {
  }

  // ---------------------------------------------------------------------------
  // Encoding an interaction as JSON (camelCase names, `None` as null).

  function OptStringJson(o: Option<string>): Json
  {
    match o
    case Some(s) => JStr(s)
    case None => JNull
  }

  function OptBoolJson(o: Option<bool>): Json
  {
    match o
    case Some(b) => JBool(b)
    case None => JNull
  }

  function EncodeInteraction(i: Interaction): Json
  {
    JObj([Field("enabled", OptBoolJson(i.enabled)),
          Field("interactionType", JStr(InteractionTypeName(i.interactionType))),
          Field("actionId", JStr(i.actionId)),
          Field("verb", OptStringJson(i.verb)),
          Field("rawInputs", i.rawInputs),
          Field("cardInstanceId", JStr(i.cardInstanceId)),
          Field("metadata", i.metadata)])
  }

  /** Serialising an interaction and reading it back gives the same interaction. */
  lemma InteractionRoundTrip(i: Interaction)
    ensures DecodeInteraction(EncodeInteraction(i)) == Ok(i)
  {
    var fs := EncodeInteraction(i).fields;
    EncodedFields(i);
    OptionJsonRoundTrip(i.enabled, i.verb);
    assert Aliased(fs, "interactionType", "interaction_type") == Ok(Some(JStr(InteractionTypeName(i.interactionType))));
    assert Aliased(fs, "actionId", "action_id") == Ok(Some(JStr(i.actionId)));
    assert Aliased(fs, "rawInputs", "raw_inputs") == Ok(Some(i.rawInputs));
    assert Aliased(fs, "cardInstanceId", "card_instance_id") == Ok(Some(JStr(i.cardInstanceId)));
  }

  /** Optional fields read back what they were written from. */
  lemma OptionJsonRoundTrip(b: Option<bool>, t: Option<string>)
    ensures OptBool(Some(OptBoolJson(b)), "enabled") == Ok(b)
    ensures OptString(Some(OptStringJson(t)), "verb") == Ok(t)
  {
  }

  /** What each field name reads in an encoded interaction. */
  lemma EncodedFields(i: Interaction)
    ensures var fs := EncodeInteraction(i).fields;
      && Get(fs, "enabled") == Some(OptBoolJson(i.enabled))
      && Get(fs, "interactionType") == Some(JStr(InteractionTypeName(i.interactionType)))
      && Get(fs, "actionId") == Some(JStr(i.actionId))
      && Get(fs, "verb") == Some(OptStringJson(i.verb))
      && Get(fs, "rawInputs") == Some(i.rawInputs)
      && Get(fs, "cardInstanceId") == Some(JStr(i.cardInstanceId))
      && Get(fs, "metadata") == Some(i.metadata)
      && Get(fs, "interaction_type").None? && Get(fs, "action_id").None?
      && Get(fs, "raw_inputs").None? && Get(fs, "card_instance_id").None?
  {
    var fs := EncodeInteraction(i).fields;
    assert Get(fs, "actionId") == Some(JStr(i.actionId)) by { GetAt(fs, 2, "actionId"); }
    assert Get(fs, "verb") == Some(OptStringJson(i.verb)) by { GetAt(fs, 3, "verb"); }
    assert Get(fs, "rawInputs") == Some(i.rawInputs) by { GetAt(fs, 4, "rawInputs"); }
    assert Get(fs, "cardInstanceId") == Some(JStr(i.cardInstanceId)) by { GetAt(fs, 5, "cardInstanceId"); }
    assert Get(fs, "metadata") == Some(i.metadata) by { GetAt(fs, 6, "metadata"); }
    assert Get(fs, "interaction_type").None? by { GetAbsent(fs, "interaction_type"); }
    assert Get(fs, "action_id").None? by { GetAbsent(fs, "action_id"); }
    assert Get(fs, "raw_inputs").None? by { GetAbsent(fs, "raw_inputs"); }
    assert Get(fs, "card_instance_id").None? by { GetAbsent(fs, "card_instance_id"); }
  }
}
