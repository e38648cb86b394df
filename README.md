# Adaptive Card component: a verified model

This project models the core of an Adaptive Card component in Dafny and
proves properties of that model. The component renders Adaptive Cards and
replays user interactions on them. A host hands it an invocation as JSON text.
The component:

- finds the invocation inside whatever envelope the host used;
- loads the card's stored state;
- renders the card, by resolving it inline, from an asset file or from a
  catalog, running its strings through a Handlebars renderer and substituting
  `@{path}` / `${path}` bindings from the payload, session, state and template
  parameters;
- summarises the card's features and validates its structure.

When the invocation carries an interaction (a submit, an execute, an open-URL,
a show-card or a visibility toggle), the component instead:

- checks the interaction;
- renders the card with the stored state;
- turns the action into state and session intents and an event;
- applies the state intents to the document and persists it.

One module per source component, each built on a shared JSON value model:

| module | models |
|---|---|
| `Wrappers`, `Text`, `JsonValue` | `Option`/`Result`, the string functions of the Rust standard library the core uses (`trim`, `split`, `find`, `replace`, `parse::<usize>`, string order), and `serde_json::Value` with its map operations |
| `Model` | the data model of src/model.rs and the errors of src/error.rs, with the JSON decoders the derived deserialisers amount to |
| `Binding`, `Rewrite`, `Template`, `Assets`, `Features`, `Validator`, `Render` | src/render.rs: binding lookup and the placeholder scanner, `apply_bindings` and `render_handlebars_value`, the Handlebars context, the asset and catalog candidates, `analyze_features`, `validate_card`, `render_card` |
| `StateStore` | src/state_store.rs: set, merge and delete by dotted path, `apply_updates`, the state key, and a `Store` class for the key-value store |
| `Interaction` | src/interaction.rs: `handle_interaction`, `normalize_inputs` |
| `Invocation` | src/lib.rs: `handle_message`, `parse_invocation`, `find_invocation_value`, the two envelope merges, `handle_invocation`, `error_payload` |
| `Schema` | src/validation.rs: `locate_invocation_candidate`, `map_schema_error`, `validate_invocation_schema` |

Code that updates variables or a `&mut` value step by step is modelled as
Dafny methods with loops. Each method is proved equal to a specification
function. Examples are the placeholder scanner, the path writes, the feature
walk, the validator's visit, the envelope merges and the handlers. The
properties are proved as lemmas about those functions. Pure code is modelled
as functions.

Several facts about the code, beyond its direct contracts, are proved:

- The `config.card` fallback in `parse_invocation` is unreachable.
- When `parse_invocation` reaches its struct merge, the envelope's `config` is
  always absent.
- The two envelope merges agree except on a null `envelope`.
- `handle_invocation` loads state under the default key before
  `handle_interaction` loads it under the card key. So an interaction without
  a node id reads the default document whenever one is stored, although it
  persists under the card's key.

## Model

| member | source | states |
|---|---|---|
| Model.Display | src/error.rs:4-15 | the display text of every error is longer than its message and ends with it, after the `#[error]` prefix (the `InteractionInvalid` prefix is assumed; see Left out) |
| Model.ParseInvocationMode | src/model.rs:25-33 | a value names a mode exactly when it spells that mode's camelCase name, as a string or as the only key of an object whose value is null |
| Model.ParseValidationMode | src/model.rs:34-42 | a value names a validation mode exactly when it spells that mode's name, as a string or as the only key of an object whose value is null |
| Model.ParseCardSource | src/model.rs:5-12 | a value names a card source exactly when it spells that source's name, as a string or as the only key of an object whose value is null |
| Model.ParseInteractionType | src/model.rs:79-89 | a value names an interaction type exactly when it spells that type's PascalCase name, as a string or as the only key of an object whose value is null |
| Model.VariantTag | src/model.rs:5-42 | the variant name a value spells is the string itself, or the only key of a one-entry object whose value is null, and nothing else |
| Model.UnitVariantForms | src/model.rs:5-89 | both spellings of every variant of the four enums decode to that variant |
| Model.Aliased | src/model.rs:43-78 | a field spelt both by its name and by its alias is a duplicate-field error; otherwise the value is the one under the name, else the one under the alias |
| Model.OptString | src/model.rs:43-78 | an optional string field decodes exactly when it is absent, null or a string, and a decoded string is the field's text |
| Model.OptValue | src/model.rs:43-78 | an optional value field is present exactly when the field is present and not null |
| Model.OptBool | src/model.rs:90-109 | an optional flag decodes exactly when it is absent, null or a boolean, and a decoded flag is the field's value |
| Model.ReqString | src/model.rs:90-109 | a required string field decodes exactly when it is present and a string, to that string |
| Model.DefaultedEnum | src/model.rs:43-78 | an absent enum field takes the default; a present one decodes exactly when it names a variant, to that variant |
| Model.StringMap | src/model.rs:15-24 | a decoded asset registry maps each key to the object's string under that key, and holds every key of the object |
| Model.DecodeInvocation | src/model.rs:43-78 | an invocation decodes only from an object; its payload, session, state and envelope are the object's members, with absent read as null |
| Model.DecodeCardSpec | src/model.rs:15-24 | a card spec decodes only from an object; its inline card and template parameters are the members, when present and not null |
| Model.DecodeInteraction | src/model.rs:90-109 | an interaction decodes only from an object carrying action id, card instance id and interaction type, each by camelCase or snake_case name; absent raw inputs and metadata are null |
| Model.OptInteraction | src/model.rs:43-78 | an absent or null interaction field is `None`; a present one decodes exactly when the interaction does |
| Model.EmptyObjectDecodesToDefaults | src/model.rs:43-78 | `{}` decodes to the default invocation: inline source, mode render-and-validate, validation mode warn |
| Model.InteractionRoundTrip | src/model.rs:90-109 | encoding an interaction with camelCase names and decoding it again gives the same interaction |
| Text.TrimSpec | src/interaction.rs:19-28 | a trimmed string neither starts nor ends with whitespace, and is empty exactly when the input is blank |
| Text.Split | src/state_store.rs:77 | `split('.')` yields at least one piece and no piece contains the separator |
| Text.JoinSplit | src/state_store.rs:77 | joining the pieces of a split with the separator gives back the string |
| Text.SplitJoin | src/state_store.rs:77 | splitting a join of separator-free pieces gives back the pieces |
| Text.FindAt | src/render.rs:480-494 | `find` reports the first occurrence of the pattern |
| Text.ParseNatToString | src/render.rs:289-306 | the decimal text of an index parses back to that index, as an array step reads it |
| Text.IndexFromFind | src/render.rs:422-468 | searching for `}` from a cursor is `find` on the remaining text, counted from the start |
| JsonValue.Put | src/render.rs:378-404 | `Map::insert`: the key maps to the new value and every other key keeps its value |
| JsonValue.PutUnique | src/render.rs:378-404 | inserting keeps an object's keys unique |
| JsonValue.PutPut | src/state_store.rs:76-98 | a second insert under the same key overrides the first |
| JsonValue.Remove | src/state_store.rs:132-154 | `Map::remove`: the key is gone and every other key keeps its value |
| JsonValue.EnsureObject | src/state_store.rs:155-160 | `ensure_object` keeps an object's fields and replaces any other value by an empty object |
| JsonValue.WalkAppend | src/render.rs:289-306 | walking a concatenated path walks the first part, then the second |
| Binding.ContextOf | src/render.rs:221-233 | the binding context takes the invocation's payload, session and state, and template parameters defaulting to `{}` |
| Binding.DefaultValue | src/render.rs:480-494 | the default after `\|\|` is absent exactly when its (trimmed) text is empty |
| Binding.ParseAtFirstSeparator | src/render.rs:480-494 | the first `\|\|` separates the path from the default, whatever lone `\|` the path holds; later ones belong to the default; both are trimmed |
| Binding.ParseWithoutSeparator | src/render.rs:480-494 | without `\|\|` the trimmed text is the path and there is no default |
| Binding.BlankDefaultIsNone | src/render.rs:480-494 | a blank default after the first `\|\|` counts as none |
| Binding.NormalizePath | src/render.rs:503-508 | a normalised path has no brackets and neither starts nor ends with a dot |
| Binding.BracketIndex | src/render.rs:503-508 | `key[i]` normalises to `key.i` |
| Binding.LookupIn | src/render.rs:289-306 | `lookup_in` equals the path walk: object steps by key, array steps by decimal index |
| Binding.WalkIndex | src/render.rs:289-306 | an array step with the decimal text of an index in range reads that item |
| Binding.WalkFailures | src/render.rs:289-306 | a missing key, an index that does not parse or is out of range, and a step into a scalar all fail |
| Binding.FirstHitSpec | src/render.rs:234-288 | trying roots in order finds nothing exactly when no root resolves the path, else the first root that does |
| Binding.LookupDefaults | src/render.rs:234-288 | a value other than null wins; a missing or null value gives way to the default; with no default, null stays null and a missing path finds nothing |
| Binding.RootedPathReadsOneRoot | src/render.rs:234-288 | a path led by `payload`, `session`, `state`, `params` or `template` reads that root only |
| Binding.UnrootedPath | src/render.rs:234-288 | any other path is normalised and tried against the roots in order |
| Binding.RootPrecedence | src/render.rs:234-288 | the roots are tried in the order payload, session, state, template parameters |
| Binding.Enclosed | src/render.rs:469-502 | a whole-string placeholder has the trimmed form `@{…}` or `${…}` |
| Binding.PlaceholderRoundTrip | src/render.rs:469-502 | wrapping a path in a marker and braces, with blank text around, and extracting it gives back the trimmed path |
| Binding.EnclosedOtherMarker | src/render.rs:469-502 | text whose trimmed form starts with another character is no whole-string placeholder |
| Binding.MarkerFromIsEarliestFind | src/render.rs:422-468 | the scanner's next marker is the earlier of the first `@{` and the first `${` |
| Binding.ReplacementCases | src/render.rs:448-462 | a placeholder becomes the string it resolves to, the JSON text of any other value, or nothing when the path is missing |
| Binding.ScanStep | src/render.rs:430-466 | one pass of the scanner's loop advances the cursor and keeps the output on course for the full substitution |
| Binding.ReplacePlaceholders | src/render.rs:422-468 | `replace_placeholders` returns the substitution of every closed placeholder, left to right |
| Binding.NoMarkerUnchanged | src/render.rs:422-468 | text with neither `@{` nor `${` comes back unchanged |
| Binding.UnclosedUnchanged | src/render.rs:422-468 | text without any `}` comes back unchanged, its markers copied literally |
| Binding.PathHasNoBrace | src/render.rs:440-447 | the path handed to the lookup ends at the first `}` after its marker |
| Binding.SubstitutedSuffix | src/render.rs:422-468 | scanning from a point depends only on the text from any earlier point on |
| Binding.PlaceholderInserted | src/render.rs:422-468 | a leading placeholder turns into its replacement and the rest is scanned on its own |
| Rewrite.BindString | src/render.rs:307-341 | a string becomes its whole-string lookup, its expression result or its placeholder substitution, as `apply_bindings` decides |
| Rewrite.ApplyBindings | src/render.rs:307-341 | `apply_bindings` rewrites every array item and object value in turn, keys staying put |
| Rewrite.BoundNonString | src/render.rs:307-341 | a string stops being a string only through a whole-string placeholder that resolved to that value |
| Rewrite.PlainStringKept | src/render.rs:307-341 | a string without markers is kept |
| Rewrite.BoundKeepsShape | src/render.rs:307-341 | binding keeps the tree's shape; only strings change |
| Rewrite.BoundPlainTree | src/render.rs:307-341 | a tree without markers is left exactly as it is |
| Rewrite.RenderHandlebarsValue | src/render.rs:349-377 | `render_handlebars_value` renders strings and visits arrays and object values in order, stopping at the first failure |
| Rewrite.RenderedFailsAtFirst | src/render.rs:349-377 | rendering fails exactly when some string fails, with the error of the first such string |
| Rewrite.RenderedKeepsShape | src/render.rs:349-377 | a successful rendering keeps the tree's shape, and strings stay strings |
| Template.StateNode | src/render.rs:405-410 | the node's state is `state.nodes.<node_id>` when both levels are present |
| Template.BuildHandlebarsContext | src/render.rs:378-404 | `build_handlebars_context` builds the context the specification function describes |
| Template.MergedGet | src/render.rs:392-401 | merging `state.input` never touches a reserved name; another name keeps its value, else takes the input's |
| Template.BaseOnlyReserved | src/render.rs:378-391 | the base context holds reserved names only |
| Template.ContextReserved | src/render.rs:378-404 | the reserved names carry the payload, the state, the node id and the node, whatever `state.input` holds |
| Template.ContextInput | src/render.rs:392-401 | any other name comes from `state.input`, and is absent when the state has no input object |
| Assets.JoinPath | src/render.rs:145 | joining a base directory and a relative name ends with the name |
| Assets.DedupSpec | src/render.rs:113-152 | deduplication keeps exactly the proposed paths, once each, the first proposal first |
| Assets.Push | src/render.rs:117-123 | the `push` closure keeps the list equal to the deduplicated proposals |
| Assets.CandidateAssetPaths | src/render.rs:113-152 | `candidate_asset_paths` returns the deduplicated proposals, in order |
| Assets.UsedAsGivenIffSeparator | src/render.rs:138-149 | a path is tried as given exactly when it contains `/` |
| Assets.AssetCandidates | src/render.rs:113-152 | the call's registry mapping comes first, the path itself is always tried, and a path without a separator is also tried under the base directory |
| Assets.CatalogMapping | src/render.rs:66-95 | the call's own registry wins; a failure is the environment registry's or the catalog file's own error |
| Assets.CandidateCatalogPaths | src/render.rs:153-175 | `candidate_catalog_paths` fails exactly when the mapping does, and otherwise returns the deduplicated proposals |
| Assets.CatalogCandidates | src/render.rs:153-175 | the mapping comes first, then `<base>/<name>.json`, then the name itself exactly when it looks like a path |
| Assets.LoadWithCandidates | src/render.rs:186-211 | `load_with_candidates` tries the candidates in order |
| Assets.FirstLoadWins | src/render.rs:186-211 | the first candidate that loads wins, with the card of the earliest one |
| Assets.AllFailKeepsLast | src/render.rs:186-211 | when no candidate loads, the error of the last one is what remains |
| Assets.ResolveCard | src/render.rs:38-65 | `resolve_card` resolves the card the specification function describes |
| Assets.ResolveMissingField | src/render.rs:38-65 | an inline card is returned as given; a missing source field is an invalid-input error naming it, before any file is read |
| Features.MergeRequires | src/render.rs:520-533 | `merge_requires` merges the incoming object into the declared one, key by key |
| Features.MissingAddedGet | src/render.rs:520-533 | the first writer wins: a key already present keeps its value; a new key takes its first value |
| Features.RequiresMergedGet | src/render.rs:520-533 | merging into an object keeps declared keys and adds the others; merging into null copies |
| Features.Walk | src/render.rs:534-581 | `walk` records the node, then visits its values or items in order |
| Features.AnalyzeFeatures | src/render.rs:509-519 | `analyze_features` returns the summary the specification function describes |
| Features.WalkedFlat | src/render.rs:534-581 | the recursive walk is the node step folded over the card's objects, in pre-order |
| Features.VisitAllTypes | src/render.rs:540-556 | a type is an action exactly when it starts with `Action.` and some object declares it, and an element exactly when it does not |
| Features.VisitAllFlags | src/render.rs:540-570 | each flag is set exactly when its type, or an `authentication` key, occurs in some object |
| Features.VisitAllKeepsRequires | src/render.rs:571-576 | once `requires` is an object, every key it declares keeps its first value to the end of the walk |
| Features.FeaturesSpec | src/render.rs:509-582 | both type lists are sorted and free of duplicates; the type and flag memberships hold for the whole card |
| Features.FeaturesRequiresFirstWins | src/render.rs:509-582 | the first `requires` declaration of a key wins for the whole card |
| Validator.InsertId | src/render.rs:633-657 | an id is inserted into its family's set, and `code` is pushed exactly when it was already there |
| Validator.CheckObject | src/render.rs:627-798 | the checks at one object push the issues the specification function lists |
| Validator.Visit | src/render.rs:620-812 | `visit` checks the object, then its values or items, with their paths |
| Validator.ValidateCard | src/render.rs:583-924 | `validate_card` returns the issues the specification function lists |
| Validator.VisitedFlat | src/render.rs:620-812 | the recursive visit is the node step folded over the card's objects, in pre-order |
| Validator.FamilyIdsSpec | src/render.rs:633-657 | an id is in a family's set exactly when some object of that family carries it |
| Validator.CheckAllIssues | src/render.rs:620-812 | every issue was there before or was pushed at some object, and every such issue is reported |
| Validator.NodeIssueOrigin | src/render.rs:627-798 | an object's issues are at its path; a choice code comes only from a choice set, `duplicate-id` only from a repeated input id |
| Validator.CardIssueOrigin | src/render.rs:583-924 | an object card's issue is a root issue or was pushed at one of the card's objects |
| Validator.InvalidRoot | src/render.rs:585-592 | a card that is not an object yields exactly one issue, `invalid-root` at `/`; an object card never yields it |
| Validator.MissingChoices | src/render.rs:661-703 | a choice set without `choices` is reported at its path |
| Validator.GoodChoicesPass | src/render.rs:661-703 | good choices get none of the choice checks' issues |
| Validator.ChoiceIssueSource | src/render.rs:661-703 | a choice code is reported only at a choice set whose choices are not good |
| Validator.DuplicateInputId | src/render.rs:633-645 | `duplicate-id` is reported exactly at the inputs whose id an earlier input already carries |
| Render.RenderCard | src/render.rs:21-36 | `render_card` returns the outcome the specification function describes |
| Render.RenderCardSpec | src/render.rs:21-36 | rendering fails exactly when resolving or the template pass fails, with that error; a success keeps the resolved card's shape and reports the final card's features and issues |
| StateStore.Write | src/state_store.rs:76-131 | a write always yields an object |
| StateStore.MergeFieldsUnion | src/state_store.rs:117-124 | a shallow merge inserts every key of the update and keeps every other key |
| StateStore.WriteThenRead | src/state_store.rs:76-131 | after `set_path` the path holds the value; after `merge_path`, the shallow merge of what was there |
| StateStore.SetThenWalk | src/state_store.rs:76-98 | after `set_path`, a lookup of the path gives exactly the value set |
| StateStore.WriteCoerces | src/state_store.rs:76-131 | a non-object at the root or on the path is replaced by an empty object |
| StateStore.WriteKeepsSiblings | src/state_store.rs:76-131 | writing changes nothing but the addressed path |
| StateStore.MergeTwice | src/state_store.rs:99-131 | merging `{a: 1}` then `{b: 2}` at a path leaves both keys there |
| StateStore.EraseAbsent | src/state_store.rs:132-154 | deleting a path that is not there changes nothing |
| StateStore.EraseThenWalk | src/state_store.rs:132-154 | after a delete, the path is gone |
| StateStore.EraseIdempotent | src/state_store.rs:132-154 | deleting twice is deleting once |
| StateStore.EraseKeepsSiblings | src/state_store.rs:132-154 | deleting leaves every other key on the path alone |
| StateStore.WritePath | src/state_store.rs:76-131 | the shared walk of `set_path` and `merge_path` produces the specified write |
| StateStore.SetPath | src/state_store.rs:76-98 | `set_path` assigns the value at the path |
| StateStore.MergePath | src/state_store.rs:99-131 | `merge_path` merges two objects shallowly and sets anything else |
| StateStore.DeletePath | src/state_store.rs:132-154 | `delete_path` removes the key and stops at the first missing key or non-object |
| StateStore.AppliedSnoc | src/state_store.rs:56-64 | updates apply in list order |
| StateStore.ApplyUpdates | src/state_store.rs:56-64 | `apply_updates` applies the updates in order |
| StateStore.SetMergeDeleteSequence | src/state_store.rs:285-304 | set `form_data.name`, merge `{tier: …}` into `form_data`, delete `form_data.name`: `tier` is there and `name` is gone |
| StateStore.StateKey | src/state_store.rs:66-74 | the key is `adaptive-card:node:<node_id>` when there is a node id, else `adaptive-card:card:<card_instance_id>` with an interaction, else `adaptive-card:default` |
| StateStore.StateKeyInjective | src/state_store.rs:66-74 | different nodes, different card instances and the default never share a key |
| StateStore.Store.constructor | src/state_store.rs:161-248 | a new store is empty |
| StateStore.Store.LoadStateIfMissing | src/state_store.rs:20-33 | a present state is kept; a null state is replaced by the stored document, if any |
| StateStore.Store.PersistState | src/state_store.rs:35-47 | a null document removes the key; any other is stored under it |
| StateStore.PersistThenLoad | src/state_store.rs:306-315 | persisting a document and loading into a stateless invocation gives it back |
| StateStore.PersistNullThenLoad | src/state_store.rs:35-47 | persisting null and then loading finds nothing |
| Interaction.NormalizeInputsCases | src/interaction.rs:149-164 | objects pass; null is `{}`; a parsable string is what it parses to; anything else is wrapped as `{"value": raw}` |
| Interaction.HandleInteraction | src/interaction.rs:12-147 | `handle_interaction` returns and stores what the specification function describes |
| Interaction.Intents | src/interaction.rs:35-88 | the state and session intents and the action type, pushed as the source does |
| Interaction.Respond | src/interaction.rs:34-146 | the response and the persisted document after the card has rendered |
| Interaction.RejectedBeforeState | src/interaction.rs:15-28 | a missing interaction or a blank action id or card instance id is refused with the first failing check's error, and the store is untouched |
| Interaction.AcceptedIds | src/interaction.rs:15-33 | an interaction with non-blank ids is accepted; a rendering error is returned with the store untouched |
| Interaction.StateIntents | src/interaction.rs:47-88 | each interaction type emits exactly its one state intent, or none for open-URL |
| Interaction.RouteIntent | src/interaction.rs:38-45 | a string `route` in the metadata gives exactly one route change, the same route the event reports |
| Interaction.EventFields | src/interaction.rs:90-113 | the event names the action and card instance, carries the normalised inputs, and takes its card id from metadata `cardId` or else the card instance id |
| Interaction.PersistedNotNull | src/interaction.rs:115-122 | the persisted document is never null, so the store always keeps it |
| Interaction.RespondedSpec | src/interaction.rs:115-146 | the result carries the card, its features and issues, the event and the intents; the state (or `{}`) with the intents applied is stored under the state key |
| Interaction.ShowCardRecorded | src/interaction.rs:63-75 | after a show-card, the persisted document holds the sub-card at `ui.active_show_card.<card_instance_id>` split at every dot, for any card instance id; for a dot-free id that is three levels down |
| Interaction.ToggleRecorded | src/interaction.rs:76-87 | after a toggle, the persisted document holds the visibility flag at `ui.visibility.<action_id>` split at every dot, for any action id |
| Interaction.SubmitRecorded | src/interaction.rs:48-61 | after a submit or execute with object inputs, every input field reads back under `form_data` |
| Interaction.DottedPath | src/interaction.rs:70-85 | a dotted path of dot-free pieces splits into those pieces |
| Invocation.FoundIsPart | src/lib.rs:270-302 | a non-object yields nothing; an object naming a card yields itself; anything found is the input, one of its members, or the `card` inside `config` |
| Invocation.OptInvocation | src/lib.rs:179-197 | an absent or null `config` is `None`; a present one decodes exactly when it is an invocation |
| Invocation.OptMode | src/lib.rs:179-197 | an absent or null `mode` is `None`; a present one decodes exactly when it names a mode |
| Invocation.DecodeEnvelope | src/lib.rs:179-197 | the envelope decodes only from an object; payload, session, state and envelope are its members, absent read as null |
| Invocation.MergeEnvelope | src/lib.rs:228-268 | `merge_envelope`, field by field, equals the specification function |
| Invocation.MergedIdempotent | src/lib.rs:228-268 | merging the same envelope twice is merging it once |
| Invocation.MergedFields | src/lib.rs:228-268 | card, source and validation mode stay; a null or absent payload keeps the invocation's own, a present one replaces it; a non-string `node_id` is ignored; an existing interaction is kept |
| Invocation.MergeEnvelopeStruct | src/lib.rs:304-335 | `merge_envelope_struct` returns the payload's invocation when there is no inline card and it decodes, else the overlay |
| Invocation.OverlaidIdempotent | src/lib.rs:313-334 | overlaying the same envelope twice is overlaying it once |
| Invocation.MergesAgree | src/lib.rs:228-335 | on an envelope that decodes, the raw merge equals the struct overlay, except that a null `envelope` clears it in the raw merge |
| Invocation.ParseInvocation | src/lib.rs:199-226 | `parse_invocation` equals the specification function |
| Invocation.ConfigCardUnreachable | src/lib.rs:206-215 | when nothing was found, `config` has no `card`, so the second fallback never applies |
| Invocation.EnvelopeFallback | src/lib.rs:217-226 | past the fallbacks the envelope's `config` is absent; the input parses to its payload when that decodes, else to the envelope laid over the defaults |
| Invocation.ParsedValueShape | src/lib.rs:199-204 | only an object parses; a found invocation is decoded as it stands, ignoring the envelope |
| Invocation.Active | src/lib.rs:153-157 | an interaction survives exactly when it is present and not disabled |
| Invocation.HandleInvocation | src/lib.rs:149-177 | `handle_invocation` returns and stores what the specification function describes |
| Invocation.DisabledInteractionRenders | src/lib.rs:153-157 | a disabled interaction acts as no interaction |
| Invocation.RenderPath | src/lib.rs:158-176 | without an active interaction the store is untouched; a success has no event, no intents and no telemetry, and lacks the card exactly in validate mode |
| Invocation.InteractionPath | src/lib.rs:158-160 | with an active interaction, a success always carries the card and an event, whatever the mode |
| Invocation.InteractionStateSource | src/lib.rs:152 | without a state or node id, an interaction sees the default document if one is stored, else the document under its card key |
| Invocation.ErrorPayload | src/lib.rs:337-339 | the error payload is an object whose only member, `error`, holds the message |
| Invocation.HandleMessage | src/lib.rs:132-147 | `handle_message` answers and stores what the specification function describes |
| Invocation.ValidateOperation | src/lib.rs:136-138 | an operation spelt `validate` in any ASCII case answers without a card on the render path; any other operation leaves the parsed mode alone |
| Invocation.FailureReply | src/lib.rs:139-146 | a parse failure answers the error payload of `invalid invocation: ` and the parse error's display text, with the store untouched; otherwise the reply fails exactly when the handler does, with the handler's error's display text |
| Invocation.FailureTextEnds | src/lib.rs:142-145 | a failure text ends with the error's own message |
| Schema.FirstPresent | src/validation.rs:68-100 | the first present candidate: present exactly when some candidate is, and no earlier one is present |
| Schema.SameAsEntryPoint | src/validation.rs:68-100 | the copy in src/validation.rs, read as "the first present candidate in the source's order", finds what the one in src/lib.rs (lines 270-302) finds |
| Schema.LocateFallbacks | src/validation.rs:20-35 | nothing is located exactly when nothing is found and neither `payload` nor `config` is an object; a fallback is an object, `payload` before `config` |
| Schema.MappedIssue | src/validation.rs:48-66 | the message is kept; the path is never empty, is `/` for the root and the pointer otherwise; the code tells the error kind back |
| Schema.CodesDiffer | src/validation.rs:49-54 | distinct error kinds have distinct codes |
| Schema.ValidateInvocationSchema | src/validation.rs:37-46 | one issue per schema error, in order, each the mapping of its error |

## Left out

- I/O is a parameter. The file system, the environment variables, the asset base directory and the key-value store's backing are given as parameters. The store is a `Store` class whose map is its contents.
- Store errors are not modelled. Reads, writes and deletes of the store never fail in the model, though the source can propagate a state-store error.
- External libraries are functions passed in:
  - the JSON text parser and printer (a `Codec`);
  - the Handlebars renderer;
  - the expression engine;
  - the JSON Schema checker, whose errors are an input of `validate_invocation_schema`.
- Tracing and telemetry are left out. The telemetry event of `handle_interaction` and the trace hashes are not modelled, and telemetry is always empty. `RenderOutcome` therefore has no asset-resolution or binding-summary fields.
- Floating point is not modelled. JSON numbers are integers; the `min`/`max` range check of a number input compares integers.
- Serialisation is not modelled:
  - the serialisation of the result to text, and its failure path, is not modelled;
  - a reply is the result or the error payload as a JSON value.
- serde's error messages are not reproduced. A failed JSON parse has a fixed message, and decode errors have messages of the model's own. When several fields are malformed, the model reports them in field order.
- `InteractionInvalid`: src/interaction.rs:20 and :25 raise this error variant, but the enum in src/error.rs:4-15 does not declare it. The model adds it with the display prefix `interaction invalid: `; that prefix is assumed, and it reaches every interaction-error reply of `handle_message`.
- serde's positional form is not modelled. Decoding a struct from a JSON array is rejected, as for any non-object.
- `InvocationEnvelope`'s `envelope` field holds a type from a library outside this model. Any non-null JSON value is taken to decode as one.
- Object key order is not modelled. Objects are lists of fields where the first field with a key wins. serde's `BTreeMap` key sorting is not modelled, so iteration follows insertion order.
- Two unreachable guards are not modelled: the empty-pieces guard after `split` in the state store, and the length guard inside the placeholder scanner.
- The wasm export glue, `describe_payload` and the `Mutex` around the in-memory store are not modelled.
- Validation mode never escalates issues into errors, because the code does not use it that way.
- A binding whose path is missing is replaced by the empty string, as the code does, rather than raised as an error.
