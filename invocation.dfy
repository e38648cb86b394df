/** The entry points in src/lib.rs: `handle_message` parses the host's
    input into an invocation (`parse_invocation`, with `find_invocation_value`
    and the two envelope merges), lets the operation name force validation,
    and runs `handle_invocation`, which loads the stored state and either
    replays an interaction or renders the card. */
module Invocation {
  import opened Wrappers
  import opened Text
  import opened JsonValue
  import opened Model
  import opened StateStore
  import opened Render
  import H = Interaction

  // ---------------------------------------------------------------------------
  // Finding the invocation inside the input.

  /** An object naming `card_source` or `card_spec`. */
  predicate CarriesCard(v: Json)
  {
    v.JObj? && (HasKey(v.fields, "card_source") || HasKey(v.fields, "card_spec"))
  }

  /** `find_invocation_value`: the input itself when it names a card, else
      its `invocation`, else its `card`, else its `payload` or its `config`
      when that names a card, else the `card` inside `config`. */
  function FindInvocationValue(v: Json): Option<Json>
  {
    match v
    case JObj(fs) =>
      if CarriesCard(v) then Some(v)
      else if HasKey(fs, "invocation") then Get(fs, "invocation")
      else if HasKey(fs, "card") then Get(fs, "card")
      else if HasKey(fs, "payload") && CarriesCard(Get(fs, "payload").value) then Get(fs, "payload")
      else if HasKey(fs, "config") then
        var config := Get(fs, "config").value;
        if CarriesCard(config) then Some(config) else Member(config, "card")
      else None
    case _ => None
  }

  /** What is found is the input itself, one of its members, or the `card`
      inside its `config`; an input that is not an object yields nothing, and
      one naming a card yields itself. */
  lemma FoundIsPart(v: Json)
    ensures !v.JObj? ==> FindInvocationValue(v).None?
    ensures CarriesCard(v) ==> FindInvocationValue(v) == Some(v)
    ensures FindInvocationValue(v).Some? ==>
              FindInvocationValue(v) == Some(v)
              || FindInvocationValue(v) == Member(v, "invocation")
              || FindInvocationValue(v) == Member(v, "card")
              || (FindInvocationValue(v) == Member(v, "payload") && CarriesCard(Member(v, "payload").value))
              || (FindInvocationValue(v) == Member(v, "config") && CarriesCard(Member(v, "config").value))
              || (Member(v, "config").Some? && FindInvocationValue(v) == Member(Member(v, "config").value, "card"))
  {
  }

  // ---------------------------------------------------------------------------
  // The host envelope (`InvocationEnvelope`).

  /** Every field has a default: absent or null means `None` or null. */
  datatype Envelope = Envelope(
    config: Option<Invocation>,
    payload: Json,
    session: Json,
    state: Json,
    interaction: Option<Interaction>,
    mode: Option<InvocationMode>,
    nodeId: Option<string>,
    envelope: Option<Json>)

  /** An `Option<AdaptiveCardInvocation>` field. */
  function OptInvocation(o: Option<Json>): (r: Result<Option<Invocation>, string>)
    ensures o.None? || o.value.JNull? ==> r == Ok(None)
    ensures o.Some? && !o.value.JNull? ==> (r.Ok? <==> DecodeInvocation(o.value).Ok?)
    ensures r.Ok? && r.value.Some? ==> o.Some? && DecodeInvocation(o.value) == Ok(r.value.value)
  {
    match o
    case None => Ok(None)
    case Some(JNull) => Ok(None)
    case Some(v) =>
      match DecodeInvocation(v)
      case Ok(inv) => Ok(Some(inv))
      case Err(e) => Err(e)
  }

  /** An `Option<InvocationMode>` field. */
  function OptMode(o: Option<Json>): (r: Result<Option<InvocationMode>, string>)
    ensures o.None? || o.value.JNull? ==> r == Ok(None)
    ensures o.Some? && !o.value.JNull? ==> (r.Ok? <==> ParseInvocationMode(o.value).Some?)
    ensures r.Ok? && r.value.Some? ==> o.Some? && ParseInvocationMode(o.value) == r.value
  {
    match o
    case None => Ok(None)
    case Some(JNull) => Ok(None)
    case Some(v) =>
      match ParseInvocationMode(v)
      case Some(m) => Ok(Some(m))
      case None => Err("unknown variant for `mode`")
  }

  /** `InvocationEnvelope` from JSON: an object whose present fields have the
      right form. */
  function DecodeEnvelope(v: Json): (r: Result<Envelope, string>)
    ensures r.Ok? ==> v.JObj?
    ensures r.Ok? ==> r.value.payload == ValueField(Member(v, "payload"))
                      && r.value.session == ValueField(Member(v, "session"))
                      && r.value.state == ValueField(Member(v, "state"))
                      && r.value.envelope == OptValue(Member(v, "envelope"))
  {
    match v
    case JObj(fs) =>
      var config :- OptInvocation(Get(fs, "config"));
      var interaction :- OptInteraction(Get(fs, "interaction"));
      var mode :- OptMode(Get(fs, "mode"));
      var nodeId :- OptString(Get(fs, "node_id"), "node_id");
      Ok(Envelope(config, ValueField(Get(fs, "payload")), ValueField(Get(fs, "session")),
                  ValueField(Get(fs, "state")), interaction, mode, nodeId, OptValue(Get(fs, "envelope"))))
    case _ => Err("invalid type: expected struct InvocationEnvelope")
  }

  // ---------------------------------------------------------------------------
  // `merge_envelope`: laying the fields of a raw envelope over an invocation.

  /** `serde_json::from_value(interaction).ok()`: an interaction, or nothing
      when the value does not decode as one. */
  function InteractionOrNone(x: Json): Option<Interaction>
  {
    match DecodeInteraction(x)
    case Ok(i) => Some(i)
    case Err(_) => None
  }

  /** A present, non-null envelope value, or what was there before. */
  function Overriding(present: Option<Json>, before: Json): Json
  {
    if present.Some? && !present.value.JNull? then present.value else before
  }

  /** What `merge_envelope` makes of an invocation and the raw envelope. */
  function Merged(inv: Invocation, v: Json): Invocation
  {
    var nodeId := if StrMember(v, "node_id").Some? then StrMember(v, "node_id") else inv.nodeId;
    var interaction :=
      if inv.interaction.None? && Member(v, "interaction").Some? then InteractionOrNone(Member(v, "interaction").value)
      else inv.interaction;
    var mode :=
      if Member(v, "mode").Some? && ParseInvocationMode(Member(v, "mode").value).Some?
      then ParseInvocationMode(Member(v, "mode").value).value
      else inv.mode;
    var envelope := if Member(v, "envelope").Some? then OptValue(Member(v, "envelope")) else inv.envelope;
    inv.(nodeId := nodeId,
         payload := Overriding(Member(v, "payload"), inv.payload),
         session := Overriding(Member(v, "session"), inv.session),
         state := Overriding(Member(v, "state"), inv.state),
         interaction := interaction, mode := mode, envelope := envelope)
  }

  /** `merge_envelope`, field by field. */
  method MergeEnvelope(inv: Invocation, v: Json) returns (r: Invocation)
    ensures r == Merged(inv, v)
  {
    r := inv;
    var payload := ValueField(Member(v, "payload"));
    var session := ValueField(Member(v, "session"));
    var state := ValueField(Member(v, "state"));
    var nodeId := StrMember(v, "node_id");
    if nodeId.Some? {
      r := r.(nodeId := nodeId);
    }
    if !payload.JNull? {
      r := r.(payload := payload);
    }
    if !session.JNull? {
      r := r.(session := session);
    }
    if !state.JNull? {
      r := r.(state := state);
    }
    var interaction := Member(v, "interaction");
    if r.interaction.None? && interaction.Some? {
      r := r.(interaction := InteractionOrNone(interaction.value));
    }
    var mode := Member(v, "mode");
    if mode.Some? {
      var parsed := ParseInvocationMode(mode.value);
      if parsed.Some? {
        r := r.(mode := parsed.value);
      }
    }
    var envelope := Member(v, "envelope");
    if envelope.Some? {
      r := r.(envelope := OptValue(envelope));
    }
  }

  /** Merging the same envelope twice is merging it once. */
  lemma MergedIdempotent(inv: Invocation, v: Json)
    ensures Merged(Merged(inv, v), v) == Merged(inv, v)
  {
  }

  /** Only the envelope's fields change: the card, its source and the
      validation mode stay; a null or absent payload, session or state keeps
      the invocation's own, a present one replaces it; a `node_id` that is not
      a string is ignored; an interaction already present is kept. */
  lemma MergedFields(inv: Invocation, v: Json)
    ensures var r := Merged(inv, v);
            r.cardSource == inv.cardSource && r.cardSpec == inv.cardSpec
            && r.validationMode == inv.validationMode
            && (Member(v, "payload").None? || Member(v, "payload").value.JNull? ==> r.payload == inv.payload)
            && (Member(v, "payload").Some? && !Member(v, "payload").value.JNull? ==> r.payload == Member(v, "payload").value)
            && (Member(v, "node_id").None? || !Member(v, "node_id").value.JStr? ==> r.nodeId == inv.nodeId)
            && (r.nodeId != inv.nodeId ==> Member(v, "node_id") == Some(JStr(r.nodeId.value)))
            && (inv.interaction.Some? ==> r.interaction == inv.interaction)
  {
  }

  // ---------------------------------------------------------------------------
  // `merge_envelope_struct`: laying a decoded envelope over an invocation.

  /** The fields of a decoded envelope laid over an invocation. */
  function Overlaid(inv: Invocation, env: Envelope): Invocation
  {
    inv.(nodeId := if env.nodeId.Some? then env.nodeId else inv.nodeId,
         payload := if env.payload.JNull? then inv.payload else env.payload,
         session := if env.session.JNull? then inv.session else env.session,
         state := if env.state.JNull? then inv.state else env.state,
         interaction := if inv.interaction.None? then env.interaction else inv.interaction,
         mode := if env.mode.Some? then env.mode.value else inv.mode,
         envelope := if env.envelope.Some? then env.envelope else inv.envelope)
  }

  /** What `merge_envelope_struct` returns: the payload itself when the
      invocation has no inline card and the payload decodes as an invocation,
      the overlay otherwise. */
  function MergedStruct(inv: Invocation, env: Envelope): Invocation
  {
    if inv.cardSpec.inlineJson.None? && DecodeInvocation(env.payload).Ok? then DecodeInvocation(env.payload).value
    else Overlaid(inv, env)
  }

  /** `merge_envelope_struct`. */
  method MergeEnvelopeStruct(inv: Invocation, env: Envelope) returns (r: Invocation)
    ensures r == MergedStruct(inv, env)
  {
    if inv.cardSpec.inlineJson.None? {
      var candidate := DecodeInvocation(env.payload);
      if candidate.Ok? {
        return candidate.value;
      }
    }
    r := inv;
    if env.nodeId.Some? {
      r := r.(nodeId := env.nodeId);
    }
    if !env.payload.JNull? {
      r := r.(payload := env.payload);
    }
    if !env.session.JNull? {
      r := r.(session := env.session);
    }
    if !env.state.JNull? {
      r := r.(state := env.state);
    }
    if r.interaction.None? {
      r := r.(interaction := env.interaction);
    }
    if env.mode.Some? {
      r := r.(mode := env.mode.value);
    }
    if env.envelope.Some? {
      r := r.(envelope := env.envelope);
    }
  }

  /** Overlaying the same envelope twice is overlaying it once. */
  lemma OverlaidIdempotent(inv: Invocation, env: Envelope)
    ensures Overlaid(Overlaid(inv, env), env) == Overlaid(inv, env)
  {
  }

  /** The two merges agree on an envelope that decodes, but for one field:
      a null `envelope` clears the invocation's envelope in the raw merge
      (null does not decode as an envelope, and the failure becomes `None`)
      while the struct merge keeps it. */
  lemma MergesAgree(inv: Invocation, v: Json, env: Envelope)
    requires DecodeEnvelope(v) == Ok(env)
    ensures Merged(inv, v) == (if Member(v, "envelope") == Some(JNull) then Overlaid(inv, env).(envelope := None)
                               else Overlaid(inv, env))
  {
    EnvelopeFields(v, env);
    var m, o := Merged(inv, v), Overlaid(inv, env);
    assert m.nodeId == o.nodeId;
    assert m.payload == o.payload && m.session == o.session && m.state == o.state;
    assert m.interaction == o.interaction;
    assert m.mode == o.mode;
  }

  /** The fields of a decoded envelope, as read from the raw value. */
  lemma EnvelopeFields(v: Json, env: Envelope)
    requires DecodeEnvelope(v) == Ok(env)
    ensures v.JObj?
    ensures env.nodeId == StrMember(v, "node_id")
    ensures env.mode == (if Member(v, "mode").Some? && ParseInvocationMode(Member(v, "mode").value).Some?
                         then ParseInvocationMode(Member(v, "mode").value) else None)
    ensures env.interaction == (if Member(v, "interaction").None? then None else InteractionOrNone(Member(v, "interaction").value))
  {
    var fs := v.fields;
    assert env.nodeId.Some? ==> Get(fs, "node_id") == Some(JStr(env.nodeId.value));
    assert env.mode.Some? ==> ParseInvocationMode(Get(fs, "mode").value) == env.mode;
  }

  // ---------------------------------------------------------------------------
  // `parse_invocation`.

  /** The text of a failed JSON parse; serde's own wording is not modelled. */
  const NotJson := "input is not valid JSON"

  /** What `parse_invocation` makes of a parsed input value. */
  function ParsedValue(v: Json): Result<Invocation, ComponentError>
  {
    match FindInvocationValue(v)
    case Some(found) =>
      (match DecodeInvocation(found)
       case Ok(inv) => Ok(inv)
       case Err(e) => Err(SerdeError(e)))
    case None =>
      var config := Member(v, "config");
      if config.Some? && DecodeInvocation(config.value).Ok? then
        Ok(Merged(DecodeInvocation(config.value).value, v))
      else if config.Some? && Member(config.value, "card").Some?
              && DecodeInvocation(Member(config.value, "card").value).Ok? then
        Ok(Merged(DecodeInvocation(Member(config.value, "card").value).value, v))
      else
        match DecodeEnvelope(v)
        case Err(e) => Err(SerdeError(e))
        case Ok(env) =>
          if env.config.None? && DecodeInvocation(env.payload).Ok? then Ok(DecodeInvocation(env.payload).value)
          else Ok(MergedStruct(env.config.GetOr(DefaultInvocation()), env))
  }

  /** What `parse_invocation` makes of the input text. */
  function Parsed(input: string, codec: Codec): Result<Invocation, ComponentError>
  {
    match codec.parse(input)
    case None => Err(SerdeError(NotJson))
    case Some(v) => ParsedValue(v)
  }

  /** `parse_invocation`. */
  method ParseInvocation(input: string, codec: Codec) returns (r: Result<Invocation, ComponentError>)
    ensures r == Parsed(input, codec)
  {
    var parsed := codec.parse(input);
    if parsed.None? {
      return Err(SerdeError(NotJson));
    }
    var v := parsed.value;
    var found := FindInvocationValue(v);
    if found.Some? {
      var decoded := DecodeInvocation(found.value);
      if decoded.Err? {
        return Err(SerdeError(decoded.error));
      }
      return Ok(decoded.value);
    }
    var inner := Member(v, "config");
    if inner.Some? {
      var decoded := DecodeInvocation(inner.value);
      if decoded.Ok? {
        var merged := MergeEnvelope(decoded.value, v);
        return Ok(merged);
      }
      var card := Member(inner.value, "card");
      if card.Some? {
        var fromCard := DecodeInvocation(card.value);
        if fromCard.Ok? {
          var merged := MergeEnvelope(fromCard.value, v);
          return Ok(merged);
        }
      }
    }
    var env := DecodeEnvelope(v);
    if env.Err? {
      return Err(SerdeError(env.error));
    }
    if env.value.config.None? {
      var fromPayload := DecodeInvocation(env.value.payload);
      if fromPayload.Ok? {
        return Ok(fromPayload.value);
      }
    }
    var config := env.value.config.GetOr(DefaultInvocation());
    var merged := MergeEnvelopeStruct(config, env.value);
    r := Ok(merged);
  }

  /** The `card` fallback inside `config` is never reached: when nothing
      was found, `config` has no `card`. */
  lemma ConfigCardUnreachable(v: Json)
    requires FindInvocationValue(v).None? && Member(v, "config").Some?
    ensures Member(Member(v, "config").value, "card").None?
  {
  }

  /** When nothing was found and `config` did not decode, the decoded
      envelope has no `config` either, so the struct merge starts from the
      default invocation, and its own payload check repeats the one before
      it: an input with neither a found invocation nor a decodable `config`
      parses to its payload, when that decodes as an invocation, and to the
      envelope laid over the defaults otherwise. */
  lemma EnvelopeFallback(v: Json, env: Envelope)
    requires FindInvocationValue(v).None?
    requires Member(v, "config").None? || DecodeInvocation(Member(v, "config").value).Err?
    requires DecodeEnvelope(v) == Ok(env)
    ensures env.config.None?
    ensures ParsedValue(v) == Ok(if DecodeInvocation(env.payload).Ok? then DecodeInvocation(env.payload).value
                                 else Overlaid(DefaultInvocation(), env))
  {
    if Member(v, "config").Some? {
      ConfigCardUnreachable(v);
    }
    EnvelopeConfig(v, env);
    assert DefaultInvocation().cardSpec.inlineJson.None?;
  }

  /** A decoded envelope's `config` is the decoded `config` member. */
  lemma EnvelopeConfig(v: Json, env: Envelope)
    requires DecodeEnvelope(v) == Ok(env)
    ensures v.JObj? && OptInvocation(Get(v.fields, "config")) == Ok(env.config)
  {
  }

  /** An input that decodes to an invocation in any of the ways tried is an
      object; a found invocation is decoded as it stands, without the
      envelope around it. */
  lemma ParsedValueShape(v: Json)
    ensures ParsedValue(v).Ok? ==> v.JObj?
    ensures FindInvocationValue(v).Some? ==>
              (ParsedValue(v).Ok? <==> DecodeInvocation(FindInvocationValue(v).value).Ok?)
              && (ParsedValue(v).Ok? ==> ParsedValue(v).value == DecodeInvocation(FindInvocationValue(v).value).value)
  {
  }

  // ---------------------------------------------------------------------------
  // `handle_invocation`.

  /** An interaction with `enabled == Some(false)` is dropped. */
  function Active(o: Option<Interaction>): (r: Option<Interaction>)
    ensures r.Some? <==> o.Some? && o.value.enabled != Some(false)
    ensures r.Some? ==> r == o
  {
    if o.Some? && o.value.enabled == Some(false) then None else o
  }

  /** The result of a plain rendering: the card unless only validation was
      asked for, no event, no intents, no telemetry. */
  function Rendering(mode: InvocationMode, out: RenderOutcome): CardResult
  {
    CardResult(if mode.Validate? then None else Some(out.card), None, [], [], out.features, out.issues, [])
  }

  /** The invocation once its state is loaded (with no interaction in the
      key) and a disabled interaction is dropped. */
  function Prepared(inv: Invocation, entries: map<string, Json>): Invocation
  {
    var loaded := H.LoadedInvocation(inv, None, entries);
    loaded.(interaction := Active(loaded.interaction))
  }

  /** What `handle_invocation` returns and stores. */
  function Invoked(inv: Invocation, entries: map<string, Json>, host: Host): H.Handling
  {
    var active := Prepared(inv, entries);
    if active.interaction.Some? then H.Handled(active, entries, host)
    else RenderedOnly(active, entries, host)
  }

  /** The rendering path of `handle_invocation`; the store is untouched. */
  function RenderedOnly(active: Invocation, entries: map<string, Json>, host: Host): H.Handling
  {
    match RenderedCard(active, host)
    case Err(e) => H.Handling(Err(e), entries)
    case Ok(out) => H.Handling(Ok(Rendering(active.mode, out)), entries)
  }

  /** `handle_invocation` against a store. */
  method HandleInvocation(store: Store, inv: Invocation, host: Host) returns (r: Result<CardResult, ComponentError>)
    modifies store
    ensures H.Handling(r, store.entries) == Invoked(inv, old(store.entries), host)
  {
    var invocation, _ := store.LoadStateIfMissing(inv, None);
    if invocation.interaction.Some? && invocation.interaction.value.enabled == Some(false) {
      invocation := invocation.(interaction := None);
    }
    assert invocation == Prepared(inv, old(store.entries));
    if invocation.interaction.Some? {
      r := H.HandleInteraction(store, invocation, host);
      return;
    }
    var rendered := RenderCard(invocation, host);
    if rendered.Err? {
      return Err(rendered.error);
    }
    var renderedCard := if invocation.mode.Validate? then None else Some(rendered.value.card);
    r := Ok(CardResult(renderedCard, None, [], [], rendered.value.features, rendered.value.issues, []));
  }

  /** A disabled interaction is as good as none: the call renders as if the
      invocation carried no interaction. */
  lemma DisabledInteractionRenders(inv: Invocation, entries: map<string, Json>, host: Host)
    requires inv.interaction.Some? && inv.interaction.value.enabled == Some(false)
    ensures Invoked(inv, entries, host) == Invoked(inv.(interaction := None), entries, host)
  {
    assert StateKey(inv, None) == StateKey(inv.(interaction := None), None);
  }

  /** Without an active interaction the store is untouched and the call
      fails exactly when rendering fails; a success has no event, no intents
      and no telemetry, carries the card unless the mode is `Validate`, and
      reports the features and issues of the rendered card. */
  lemma RenderPath(inv: Invocation, entries: map<string, Json>, host: Host)
    requires Active(inv.interaction).None?
    ensures var h := Invoked(inv, entries, host);
            var out := RenderedCard(Prepared(inv, entries), host);
            h.entries == entries
            && (h.result.Ok? <==> out.Ok?)
            && (h.result.Err? ==> h.result.error == out.error)
            && (h.result.Ok? ==>
                  var res := h.result.value;
                  res.event.None? && res.stateUpdates == [] && res.sessionUpdates == [] && res.telemetryEvents == []
                  && (res.renderedCard.None? <==> inv.mode.Validate?)
                  && (res.renderedCard.Some? ==> res.renderedCard.value == out.value.card)
                  && res.cardFeatures == out.value.features && res.validationIssues == out.value.issues)
  {
  }

  /** With an active interaction, a success always carries the card and an
      event, whatever the mode. */
  lemma InteractionPath(inv: Invocation, entries: map<string, Json>, host: Host)
    requires Active(inv.interaction).Some?
    ensures var h := Invoked(inv, entries, host);
            h.result.Ok? ==> h.result.value.renderedCard.Some? && h.result.value.event.Some?
  {
    var active := Prepared(inv, entries);
    assert Invoked(inv, entries, host) == H.Handled(active, entries, host);
    if H.Rejection(active.interaction).None? {
      var i := active.interaction.value;
      var loaded := H.LoadedInvocation(active, Some(i), entries);
      if RenderedCard(loaded, host).Ok? {
        var out := RenderedCard(loaded, host).value;
        assert H.Handled(active, entries, host) == H.Responded(i, loaded, entries, host.codec, out);
      }
    }
  }

  /** Which stored document an interaction sees when the invocation has no
      state and no node id: the state is first looked up under the default
      key, and only when nothing is found there under the card's own key,
      which is where the interaction's result is persisted. */
  lemma InteractionStateSource(inv: Invocation, i: Interaction, entries: map<string, Json>)
    requires inv.state == JNull && inv.nodeId.None?
    ensures var first := H.LoadedInvocation(inv, None, entries);
            var second := H.LoadedInvocation(first, Some(i), entries);
            var atDefault := if "adaptive-card:default" in entries then entries["adaptive-card:default"] else JNull;
            var cardKey := "adaptive-card:card:" + i.cardInstanceId;
            second.state == (if atDefault != JNull then atDefault
                             else if cardKey in entries then entries[cardKey] else JNull)
  {
  }

  // ---------------------------------------------------------------------------
  // `handle_message`.

  /** `error_payload`: an object whose only member is `error`. */
  function ErrorPayload(message: string): (r: Json)
    ensures r.JObj? && Keys(r.fields) == ["error"] && Member(r, "error") == Some(JStr(message))
  {
    JObj([Field("error", JStr(message))])
  }

  /** What `handle_message` answers: the result, or an error payload. */
  datatype Reply = Replied(result: CardResult) | Failed(payload: Json)

  /** The reply and the store it leaves behind. */
  datatype Exchange = Exchange(reply: Reply, entries: map<string, Json>)

  /** An operation named `validate`, in any ASCII case, forces the
      `Validate` mode. */
  function Steered(operation: string, inv: Invocation): Invocation
  {
    if EqIgnoreAsciiCase(operation, "validate") then inv.(mode := InvocationMode.Validate) else inv
  }

  /** What `handle_message` answers and stores. */
  function Messaged(operation: string, input: string, entries: map<string, Json>, host: Host): Exchange
  {
    match Parsed(input, host.codec)
    case Err(e) => Exchange(Failed(ErrorPayload("invalid invocation: " + Display(e))), entries)
    case Ok(inv) =>
      var h := Invoked(Steered(operation, inv), entries, host);
      match h.result
      case Ok(res) => Exchange(Replied(res), h.entries)
      case Err(e) => Exchange(Failed(ErrorPayload(Display(e))), h.entries)
  }

  /** `handle_message` against a store. */
  method HandleMessage(store: Store, operation: string, input: string, host: Host) returns (reply: Reply)
    modifies store
    ensures Exchange(reply, store.entries) == Messaged(operation, input, old(store.entries), host)
  {
    var parsed := ParseInvocation(input, host.codec);
    if parsed.Err? {
      return Failed(ErrorPayload("invalid invocation: " + Display(parsed.error)));
    }
    var invocation := parsed.value;
    if EqIgnoreAsciiCase(operation, "validate") {
      invocation := invocation.(mode := InvocationMode.Validate);
    }
    var r := HandleInvocation(store, invocation, host);
    if r.Ok? {
      reply := Replied(r.value);
    } else {
      reply := Failed(ErrorPayload(Display(r.error)));
    }
  }

  /** An operation spelt `validate` in any case, on an input without an
      active interaction, answers without a card; any other operation leaves
      the parsed mode alone. */
  lemma ValidateOperation(operation: string, input: string, entries: map<string, Json>, host: Host)
    requires Parsed(input, host.codec).Ok? && Active(Parsed(input, host.codec).value.interaction).None?
    ensures EqIgnoreAsciiCase(operation, "validate") && Messaged(operation, input, entries, host).reply.Replied? ==>
              Messaged(operation, input, entries, host).reply.result.renderedCard.None?
    ensures !EqIgnoreAsciiCase(operation, "validate") ==>
              Messaged(operation, input, entries, host) == Messaged("render", input, entries, host)
  {
    var inv := Parsed(input, host.codec).value;
    RenderPath(Steered(operation, inv), entries, host);
    assert !EqIgnoreAsciiCase("render", "validate") by {
      assert AsciiLower('r') != AsciiLower('v');
    }
  }

  /** Every failure is answered with an error payload naming the error
      that stopped the call: a parse error, prefixed with
      `invalid invocation: `, with the store untouched; otherwise the
      handler's error, shown exactly when the handler fails. */
  lemma FailureReply(operation: string, input: string, entries: map<string, Json>, host: Host)
    ensures Parsed(input, host.codec).Err? ==>
              Messaged(operation, input, entries, host)
              == Exchange(Failed(ErrorPayload("invalid invocation: " + Display(Parsed(input, host.codec).error))), entries)
    ensures Parsed(input, host.codec).Ok? ==>
              var h := Invoked(Steered(operation, Parsed(input, host.codec).value), entries, host);
              && (Messaged(operation, input, entries, host).reply.Failed? <==> h.result.Err?)
              && (h.result.Err? ==> Messaged(operation, input, entries, host).reply == Failed(ErrorPayload(Display(h.result.error))))
              && Messaged(operation, input, entries, host).entries == h.entries
  {
    var parsed := Parsed(input, host.codec);
    if parsed.Ok? {
      var h := Invoked(Steered(operation, parsed.value), entries, host);
      assert Messaged(operation, input, entries, host)
               == (match h.result
                   case Ok(res) => Exchange(Replied(res), h.entries)
                   case Err(e) => Exchange(Failed(ErrorPayload(Display(e))), h.entries));
    }
  }

  /** A failure text ends with the error's own message. */
  lemma FailureTextEnds(prefix: string, e: ComponentError)
    ensures EndsWithMessage(prefix + Display(e), e)
  {
    var text := prefix + Display(e);
    assert text[|text| - |e.msg|..] == Display(e)[|Display(e)| - |e.msg|..];
  }

  /** A text that ends with the error's message. */
  predicate EndsWithMessage(text: string, e: ComponentError)
  {
    |text| >= |e.msg| && text[|text| - |e.msg|..] == e.msg
  }
}
