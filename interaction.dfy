/** `handle_interaction` and `normalize_inputs` in src/interaction.rs: a user
    action on a rendered card is checked, the card is rendered again with
    the stored state, the action becomes state and session intents and an
    event, and the state with the intents applied is persisted. */
module Interaction {
  import opened Wrappers
  import opened Text
  import opened JsonValue
  import opened Model
  import opened StateStore
  import opened Render

  /** `normalize_inputs`: an object is kept, null becomes `{}`, a string is
      parsed as JSON text when it can be, and anything else is wrapped as
      `{"value": raw}`. */
  function NormalizeInputs(raw: Json, codec: Codec): Json
  {
    match raw
    case JObj(_) => raw
    case JNull => JObj([])
    case JStr(s) =>
      (match codec.parse(s)
       case Some(parsed) => parsed
       case None => JObj([Field("value", raw)]))
    case _ => JObj([Field("value", raw)])
  }

  /** The cases of `normalize_inputs`: objects pass through, null is the
      empty object, a parsed string is whatever it parses to (an object or
      not), and every other input is the only member, `value`, of an object. */
  lemma NormalizeInputsCases(raw: Json, codec: Codec)
    ensures raw.JObj? ==> NormalizeInputs(raw, codec) == raw
    ensures raw.JNull? ==> NormalizeInputs(raw, codec) == JObj([])
    ensures raw.JStr? && codec.parse(raw.s).Some? ==> NormalizeInputs(raw, codec) == codec.parse(raw.s).value
    ensures (!raw.JObj? && !raw.JNull? && !(raw.JStr? && codec.parse(raw.s).Some?)) ==>
              (var r := NormalizeInputs(raw, codec);
               r.JObj? && Keys(r.fields) == ["value"] && Member(r, "value") == Some(raw))
    ensures NormalizeInputs(raw, codec).JObj? || (raw.JStr? && codec.parse(raw.s).Some? && !codec.parse(raw.s).value.JObj?)
  {
  }

  /** Why an interaction is refused before any state is read: it is
      missing, or its action id or card instance id is blank. */
  function Rejection(interaction: Option<Interaction>): Option<ComponentError>
  {
    match interaction
    case None => Some(InvalidInput("interaction is required"))
    case Some(i) =>
      if Trim(i.actionId) == [] then Some(InteractionInvalid("interaction.action_id is required"))
      else if Trim(i.cardInstanceId) == [] then Some(InteractionInvalid("interaction.card_instance_id is required"))
      else None
  }

  /** The action type reported for an interaction type. */
  function ActionTypeOf(t: InteractionType): ActionType
  {
    match t
    case Submit => SubmitAction
    case Execute => ExecuteAction
    case OpenUrl => OpenUrlAction
    case ShowCard => ShowCardAction
    case ToggleVisibility => ToggleVisibilityAction
  }

  /** The sub-card shown: metadata `subcardId` when it is a string, else the
      action id. */
  function SubcardShown(i: Interaction): string
  {
    StrMember(i.metadata, "subcardId").GetOr(i.actionId)
  }

  /** The visibility set: metadata `visible` when it is a bool, else true. */
  function VisibleFlag(i: Interaction): bool
  {
    BoolMember(i.metadata, "visible").GetOr(true)
  }

  /** The state intents of an interaction type. */
  function StateUpdates(i: Interaction, inputs: Json): seq<StateUpdateOp>
  {
    match i.interactionType
    case Submit => [Merge("form_data", inputs)]
    case Execute => [Merge("form_data", inputs)]
    case OpenUrl => []
    case ShowCard => [Set("ui.active_show_card." + i.cardInstanceId, JStr(SubcardShown(i)))]
    case ToggleVisibility => [Set("ui.visibility." + i.actionId, JBool(VisibleFlag(i)))]
  }

  /** The session intents: a route change when metadata `route` is a string. */
  function SessionUpdates(i: Interaction): seq<SessionUpdateOp>
  {
    match StrMember(i.metadata, "route")
    case Some(route) => [SetRoute(route)]
    case None => []
  }

  /** The event reported for an interaction. */
  function EventOf(i: Interaction, inputs: Json): ActionEvent
  {
    ActionEvent(ActionTypeOf(i.interactionType), i.actionId, i.verb, StrMember(i.metadata, "route"), inputs,
                StrMember(i.metadata, "cardId").GetOr(i.cardInstanceId), i.cardInstanceId,
                StrMember(i.metadata, "subcardId"), i.metadata)
  }

  /** The document persisted: the state, or `{}` when it is null, with the
      intents applied in order. */
  function Persisted(state: Json, updates: seq<StateUpdateOp>): Json
  {
    Applied(if state == JNull then JObj([]) else state, updates)
  }

  /** The invocation as `load_state_if_missing` leaves it. */
  function LoadedInvocation(inv: Invocation, interaction: Option<Interaction>, entries: map<string, Json>): Invocation
  {
    if inv.state != JNull then inv
    else
      var key := StateKey(inv, interaction);
      if key in entries then inv.(state := entries[key]) else inv
  }

  /** The result of a call and the store it leaves behind. */
  datatype Handling = Handling(result: Result<CardResult, ComponentError>, entries: map<string, Json>)

  /** What `handle_interaction` returns and stores, given the stored
      documents. */
  function Handled(inv: Invocation, entries: map<string, Json>, host: Host): Handling
  {
    match Rejection(inv.interaction)
    case Some(e) => Handling(Err(e), entries)
    case None =>
      var i := inv.interaction.value;
      var loaded := LoadedInvocation(inv, Some(i), entries);
      match RenderedCard(loaded, host)
      case Err(e) => Handling(Err(e), entries)
      case Ok(out) => Responded(i, loaded, entries, host.codec, out)
  }

  /** The response to an accepted interaction whose card rendered as `out`:
      the result, and the store with the persisted document under the key. */
  function Responded(i: Interaction, loaded: Invocation, entries: map<string, Json>, codec: Codec, out: RenderOutcome): Handling
  {
    var inputs := NormalizeInputs(i.rawInputs, codec);
    var updates := StateUpdates(i, inputs);
    var document := Persisted(loaded.state, updates);
    var key := StateKey(loaded, Some(i));
    var stored := if document == JNull then entries - {key} else entries[key := document];
    Handling(Ok(CardResult(Some(out.card), Some(EventOf(i, inputs)), updates, SessionUpdates(i),
                           out.features, out.issues, [])), stored)
  }

  /** `handle_interaction` against a store. */
  method HandleInteraction(store: Store, inv: Invocation, host: Host) returns (r: Result<CardResult, ComponentError>)
    modifies store
    ensures Handling(r, store.entries) == Handled(inv, old(store.entries), host)
  {
    if inv.interaction.None? {
      return Err(InvalidInput("interaction is required"));
    }
    var interaction := inv.interaction.value;
    if Trim(interaction.actionId) == [] {
      return Err(InteractionInvalid("interaction.action_id is required"));
    }
    if Trim(interaction.cardInstanceId) == [] {
      return Err(InteractionInvalid("interaction.card_instance_id is required"));
    }
    var invocation, _ := store.LoadStateIfMissing(inv, Some(interaction));
    assert invocation == LoadedInvocation(inv, Some(interaction), old(store.entries));
    var resolved := RenderCard(invocation, host);
    if resolved.Err? {
      return Err(resolved.error);
    }
    r := Respond(store, interaction, invocation, host.codec, resolved.value);
  }

  /** The intents of `handle_interaction`, pushed as the source does. */
  method Intents(interaction: Interaction, inputs: Json)
    returns (stateUpdates: seq<StateUpdateOp>, sessionUpdates: seq<SessionUpdateOp>, actionType: ActionType)
    ensures stateUpdates == StateUpdates(interaction, inputs) && sessionUpdates == SessionUpdates(interaction)
    ensures actionType == ActionTypeOf(interaction.interactionType)
  {
    stateUpdates := [];
    sessionUpdates := [];
    var route := StrMember(interaction.metadata, "route");
    if route.Some? {
      sessionUpdates := sessionUpdates + [SetRoute(route.value)];
    }
    match interaction.interactionType {
      case Submit =>
        stateUpdates := stateUpdates + [Merge("form_data", inputs)];
        actionType := SubmitAction;
      case Execute =>
        stateUpdates := stateUpdates + [Merge("form_data", inputs)];
        actionType := ExecuteAction;
      case OpenUrl =>
        actionType := OpenUrlAction;
      case ShowCard =>
        var subcardId := StrMember(interaction.metadata, "subcardId").GetOr(interaction.actionId);
        stateUpdates := stateUpdates + [Set("ui.active_show_card." + interaction.cardInstanceId, JStr(subcardId))];
        actionType := ShowCardAction;
      case ToggleVisibility =>
        var visible := BoolMember(interaction.metadata, "visible").GetOr(true);
        stateUpdates := stateUpdates + [Set("ui.visibility." + interaction.actionId, JBool(visible))];
        actionType := ToggleVisibilityAction;
    }
  }

  /** The part of `handle_interaction` after the card has rendered: the
      intents and the event, then the state applied and persisted. */
  method Respond(store: Store, interaction: Interaction, invocation: Invocation, codec: Codec, resolved: RenderOutcome)
    returns (r: Result<CardResult, ComponentError>)
    modifies store
    ensures Handling(r, store.entries) == Responded(interaction, invocation, old(store.entries), codec, resolved)
  {
    var inputs := NormalizeInputs(interaction.rawInputs, codec);
    var stateUpdates, sessionUpdates, actionType := Intents(interaction, inputs);
    var event := ActionEvent(actionType, interaction.actionId, interaction.verb, StrMember(interaction.metadata, "route"),
                             inputs, StrMember(interaction.metadata, "cardId").GetOr(interaction.cardInstanceId),
                             interaction.cardInstanceId, StrMember(interaction.metadata, "subcardId"), interaction.metadata);
    var persisted := if invocation.state == JNull then JObj([]) else invocation.state;
    persisted := ApplyUpdates(persisted, stateUpdates);
    store.PersistState(invocation, Some(interaction), persisted);
    r := Ok(CardResult(Some(resolved.card), Some(event), stateUpdates, sessionUpdates,
                       resolved.features, resolved.issues, []));
  }

  // ---------------------------------------------------------------------------
  // Properties
  // ---------------------------------------------------------------------------

  /** A missing interaction, or a blank (empty or whitespace) action id or
      card instance id, is refused with the error of the first failing check
      and the store is left as it was. */
  lemma RejectedBeforeState(inv: Invocation, entries: map<string, Json>, host: Host)
    ensures inv.interaction.None? ==> Handled(inv, entries, host) == Handling(Err(InvalidInput("interaction is required")), entries)
    ensures (inv.interaction.Some? && IsBlank(inv.interaction.value.actionId)) ==>
              Handled(inv, entries, host) == Handling(Err(InteractionInvalid("interaction.action_id is required")), entries)
    ensures (inv.interaction.Some? && !IsBlank(inv.interaction.value.actionId) && IsBlank(inv.interaction.value.cardInstanceId)) ==>
              Handled(inv, entries, host) == Handling(Err(InteractionInvalid("interaction.card_instance_id is required")), entries)
  {
    if inv.interaction.Some? {
      TrimSpec(inv.interaction.value.actionId);
      TrimSpec(inv.interaction.value.cardInstanceId);
    }
  }

  /** An interaction with non-blank ids is accepted: the result is the
      rendering's, or its error with the store untouched. */
  lemma AcceptedIds(inv: Invocation, entries: map<string, Json>, host: Host)
    requires inv.interaction.Some? && !IsBlank(inv.interaction.value.actionId) && !IsBlank(inv.interaction.value.cardInstanceId)
    ensures var loaded := LoadedInvocation(inv, inv.interaction, entries);
            RenderedCard(loaded, host).Err? ==> Handled(inv, entries, host) == Handling(Err(RenderedCard(loaded, host).error), entries)
    ensures Handled(inv, entries, host).result.Ok? <==> RenderedCard(LoadedInvocation(inv, inv.interaction, entries), host).Ok?
  {
    TrimSpec(inv.interaction.value.actionId);
    TrimSpec(inv.interaction.value.cardInstanceId);
  }

  /** Each interaction type emits exactly its one state intent, or none for
      `OpenUrl`. */
  lemma StateIntents(i: Interaction, inputs: Json)
    ensures i.interactionType.Submit? || i.interactionType.Execute? ==> StateUpdates(i, inputs) == [Merge("form_data", inputs)]
    ensures i.interactionType.OpenUrl? ==> StateUpdates(i, inputs) == []
    ensures i.interactionType.ShowCard? ==>
              StateUpdates(i, inputs) == [Set("ui.active_show_card." + i.cardInstanceId, JStr(SubcardShown(i)))]
              && (SubcardShown(i) == if Member(i.metadata, "subcardId").Some? && Member(i.metadata, "subcardId").value.JStr?
                                     then Member(i.metadata, "subcardId").value.s else i.actionId)
    ensures i.interactionType.ToggleVisibility? ==>
              StateUpdates(i, inputs) == [Set("ui.visibility." + i.actionId, JBool(VisibleFlag(i)))]
              && (VisibleFlag(i) == if Member(i.metadata, "visible").Some? && Member(i.metadata, "visible").value.JBool?
                                    then Member(i.metadata, "visible").value.b else true)
    ensures |StateUpdates(i, inputs)| <= 1
  {
  }

  /** A string `route` in the metadata gives exactly one route change, the
      same route the event reports; otherwise there is none and the event
      has no route. */
  lemma RouteIntent(i: Interaction, inputs: Json)
    ensures |SessionUpdates(i)| == (if Member(i.metadata, "route").Some? && Member(i.metadata, "route").value.JStr? then 1 else 0)
    ensures EventOf(i, inputs).route.Some? <==> |SessionUpdates(i)| == 1
    ensures |SessionUpdates(i)| == 1 ==> SessionUpdates(i)[0] == SetRoute(EventOf(i, inputs).route.value)
  {
  }

  /** The event names the action and the card instance, carries the
      normalised inputs, and takes its card id from metadata `cardId` when it
      is a string, else from the card instance id. */
  lemma EventFields(i: Interaction, inputs: Json)
    ensures var e := EventOf(i, inputs);
            e.actionId == i.actionId && e.cardInstanceId == i.cardInstanceId && e.inputs == inputs && e.verb == i.verb
            && e.cardId == (if Member(i.metadata, "cardId").Some? && Member(i.metadata, "cardId").value.JStr?
                            then Member(i.metadata, "cardId").value.s else i.cardInstanceId)
            && (e.subcardId.Some? <==> Member(i.metadata, "subcardId").Some? && Member(i.metadata, "subcardId").value.JStr?)
  {
  }

  /** The persisted document is never null, so the store always keeps it. */
  lemma PersistedNotNull(state: Json, i: Interaction, inputs: Json)
    ensures Persisted(state, StateUpdates(i, inputs)) != JNull
  {
    var base := if state == JNull then JObj([]) else state;
    var updates := StateUpdates(i, inputs);
    if i.interactionType.OpenUrl? {
      assert Persisted(state, updates) == base;
    } else {
      OneStep(state, updates);
      assert updates[0].Set? || updates[0].Merge?;
    }
  }

  /** The response returns the card, its features and issues, the event and
      the intents, and stores the state (or `{}`) with the intents applied
      under the state key, which loading the state does not change. */
  lemma RespondedSpec(i: Interaction, inv: Invocation, entries: map<string, Json>, codec: Codec, out: RenderOutcome)
    ensures var loaded := LoadedInvocation(inv, Some(i), entries);
            var inputs := NormalizeInputs(i.rawInputs, codec);
            var h := Responded(i, loaded, entries, codec, out);
            h.result == Ok(CardResult(Some(out.card), Some(EventOf(i, inputs)), StateUpdates(i, inputs),
                                      SessionUpdates(i), out.features, out.issues, []))
            && h.entries == entries[StateKey(inv, Some(i)) := Persisted(loaded.state, StateUpdates(i, inputs))]
  {
    var loaded := LoadedInvocation(inv, Some(i), entries);
    PersistedNotNull(loaded.state, i, NormalizeInputs(i.rawInputs, codec));
    assert StateKey(loaded, Some(i)) == StateKey(inv, Some(i));
  }

  /** After a `ShowCard`, the persisted document holds the sub-card shown
      under `ui.active_show_card.<card_instance_id>`, read as `set_path`
      splits it: a card instance id with dots reaches further down. */
  lemma ShowCardRecorded(state: Json, i: Interaction, inputs: Json)
    requires i.interactionType.ShowCard?
    ensures Walk(Persisted(state, StateUpdates(i, inputs)), Split("ui.active_show_card." + i.cardInstanceId, '.'))
            == Some(JStr(SubcardShown(i)))
    ensures '.' !in i.cardInstanceId ==>
              Walk(Persisted(state, StateUpdates(i, inputs)), ["ui", "active_show_card", i.cardInstanceId])
              == Some(JStr(SubcardShown(i)))
  {
    OneStep(state, StateUpdates(i, inputs));
    SetThenWalk(if state == JNull then JObj([]) else state, Split("ui.active_show_card." + i.cardInstanceId, '.'),
                JStr(SubcardShown(i)));
    if '.' !in i.cardInstanceId {
      ShowCardPath(i.cardInstanceId);
    }
  }

  /** After a `ToggleVisibility`, the persisted document holds the flag
      under `ui.visibility.<action_id>`, read as `set_path` splits it. */
  lemma ToggleRecorded(state: Json, i: Interaction, inputs: Json)
    requires i.interactionType.ToggleVisibility?
    ensures Walk(Persisted(state, StateUpdates(i, inputs)), Split("ui.visibility." + i.actionId, '.'))
            == Some(JBool(VisibleFlag(i)))
    ensures '.' !in i.actionId ==>
              Walk(Persisted(state, StateUpdates(i, inputs)), ["ui", "visibility", i.actionId]) == Some(JBool(VisibleFlag(i)))
  {
    OneStep(state, StateUpdates(i, inputs));
    SetThenWalk(if state == JNull then JObj([]) else state, Split("ui.visibility." + i.actionId, '.'), JBool(VisibleFlag(i)));
    if '.' !in i.actionId {
      VisibilityPath(i.actionId);
    }
  }

  /** After a `Submit` or `Execute` with object inputs, every input field
      reads back under `form_data`, whatever the form held before. */
  lemma SubmitRecorded(state: Json, i: Interaction, inputs: Json, k: string)
    requires (i.interactionType.Submit? || i.interactionType.Execute?) && inputs.JObj? && UniqueKeys(inputs.fields)
    requires HasKey(inputs.fields, k)
    ensures Walk(Persisted(state, StateUpdates(i, inputs)), ["form_data", k]) == Get(inputs.fields, k)
  {
    SplitNoSeparator("form_data", '.');
    OneStep(state, StateUpdates(i, inputs));
    MergedFormRead(if state == JNull then JObj([]) else state, inputs, k);
  }

  /** Merging an object at `form_data` makes each of its fields readable
      there. */
  lemma MergedFormRead(base: Json, inputs: Json, k: string)
    requires inputs.JObj? && UniqueKeys(inputs.fields) && HasKey(inputs.fields, k)
    ensures Walk(Write(base, ["form_data"], Combine(inputs)), ["form_data", k]) == Get(inputs.fields, k)
  {
    var doc := Write(base, ["form_data"], Combine(inputs));
    WriteThenRead(base, ["form_data"], Combine(inputs));
    var form := Settled(ExistingAt(base, ["form_data"]), Combine(inputs));
    if form != inputs {
      MergeFieldsUnion(ExistingAt(base, ["form_data"]).value.fields, inputs.fields, k);
    }
    assert Get(form.fields, k) == Get(inputs.fields, k);
    WalkAppend(doc, ["form_data"], [k]);
    assert ["form_data"] + [k] == ["form_data", k];
  }

  lemma ShowCardPath(id: string)
    requires '.' !in id
    ensures Split("ui.active_show_card." + id, '.') == ["ui", "active_show_card", id]
  {
    DottedPath("ui", "active_show_card", id);
    ShowCardPrefix();
  }

  lemma VisibilityPath(id: string)
    requires '.' !in id
    ensures Split("ui.visibility." + id, '.') == ["ui", "visibility", id]
  {
    DottedPath("ui", "visibility", id);
    VisibilityPrefix();
  }

  lemma ShowCardPrefix()
    ensures "ui.active_show_card." == "ui" + "." + "active_show_card" + "."
  {
  }

  lemma VisibilityPrefix()
    ensures "ui.visibility." == "ui" + "." + "visibility" + "."
  {
  }

  /** `a.b.c` with dot-free pieces splits into those pieces. */
  lemma DottedPath(a: string, b: string, c: string)
    requires '.' !in a && '.' !in b && '.' !in c
    ensures Split(a + "." + b + "." + c, '.') == [a, b, c]
  {
    SplitNoSeparator(c, '.');
    SplitAfterPiece(b, '.', c);
    SplitAfterPiece(a, '.', b + ['.'] + c);
    Regroup(a, ['.'], b, c);
    assert [a] + ([b] + [c]) == [a, b, c];
  }

  lemma Regroup<T>(a: seq<T>, s: seq<T>, b: seq<T>, c: seq<T>)
    ensures a + s + b + s + c == a + s + (b + s + c)
  {
  }

  /** Applying a single intent is one step. */
  lemma OneStep(state: Json, updates: seq<StateUpdateOp>)
    requires |updates| == 1
    ensures Persisted(state, updates) == Step(if state == JNull then JObj([]) else state, updates[0])
  {
    var base := if state == JNull then JObj([]) else state;
    assert updates[1..] == [];
    assert Applied(Step(base, updates[0]), []) == Step(base, updates[0]);
  }
}
