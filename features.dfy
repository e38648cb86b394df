/** The feature summary of a rendered card (`analyze_features` in
    src/render.rs): the element and action types it uses, as ordered sets,
    four flags, and the merged `requires` declarations. The walk visits every
    object of the card in pre-order; `WalkedFlat` proves it equal to a fold of
    one node step over that list of objects, and the properties are proved on
    the fold. */
module Features {
  import opened Wrappers
  import opened Text
  import opened JsonValue
  import opened Model

  /** What the walk threads through the card: the two `BTreeSet`s (as their
      ordered contents), the flags, and the `requires` value so far. */
  datatype Tally = Tally(
    elements: seq<string>,
    actions: seq<string>,
    showCard: bool,
    toggle: bool,
    media: bool,
    auth: bool,
    required: Json)

  /** Both sets are kept in order, as a `BTreeSet` keeps them. */
  predicate Ordered(t: Tally)
  {
    Sorted(t.elements) && Sorted(t.actions)
  }

  /** The tally before the walk: empty sets, no flags, `requires` null. */
  function Start(): (t: Tally)
    ensures Ordered(t)
  {
    Tally([], [], false, false, false, false, JNull)
  }

  /** `map.get("type").and_then(Value::as_str)`. */
  function TypeOf(fs: seq<Field>): Option<string>
  {
    match Get(fs, "type")
    case Some(JStr(kind)) => Some(kind)
    case _ => None
  }

  // ---------------------------------------------------------------------------
  // `merge_requires`
  // ---------------------------------------------------------------------------

  /** The fields of `src` from `i` on added to `dst` where `dst` has no such
      key (`entry(k).or_insert(v)`). */
  function MissingAdded(dst: seq<Field>, src: seq<Field>, i: nat): seq<Field>
    requires i <= |src|
    decreases |src| - i
  {
    if i == |src| then dst
    else
      var next := if HasKey(dst, src[i].key) then dst else Put(dst, src[i].key, src[i].val);
      MissingAdded(next, src, i + 1)
  }

  /** The value `merge_requires` leaves: an object gains the incoming object's
      missing keys, null takes the incoming value, anything else stays. */
  function RequiresMerged(target: Json, incoming: Json): Json
  {
    match target
    case JObj(dst) => if incoming.JObj? then JObj(MissingAdded(dst, incoming.fields, 0)) else target
    case JNull => incoming
    case _ => target
  }

  /** The `entry(k).or_insert(v)` loop of `merge_requires`. */
  method AddMissing(dst: seq<Field>, src: seq<Field>) returns (fields: seq<Field>)
    ensures fields == MissingAdded(dst, src, 0)
  {
    fields := dst;
    for i := 0 to |src|
      invariant MissingAdded(fields, src, i) == MissingAdded(dst, src, 0)
    {
      if !HasKey(fields, src[i].key) {
        fields := Put(fields, src[i].key, src[i].val);
      }
    }
  }

  /** `merge_requires`. */
  method MergeRequires(target: Json, incoming: Json) returns (r: Json)
    ensures r == RequiresMerged(target, incoming)
  {
    r := target;
    if target.JObj? {
      if incoming.JObj? {
        var fields := AddMissing(target.fields, incoming.fields);
        r := JObj(fields);
      }
    } else if target.JNull? {
      r := incoming;
    }
  }

  /** First writer wins: a key already present keeps its value, and a new key
      takes its first value among the added fields. */
  lemma {:induction false} MissingAddedGet(dst: seq<Field>, src: seq<Field>, i: nat, k: string)
    requires i <= |src|
    ensures Get(MissingAdded(dst, src, i), k) == if HasKey(dst, k) then Get(dst, k) else Get(src[i..], k)
    decreases |src| - i
  {
    if i < |src| {
      var next := if HasKey(dst, src[i].key) then dst else Put(dst, src[i].key, src[i].val);
      MissingAddedGet(next, src, i + 1, k);
      assert src[i..][0] == src[i] && src[i..][1..] == src[i + 1..];
    }
  }

  /** Merging into an object: keys already declared keep their value, others
      come from the incoming object when it is one; merging into null copies. */
  lemma RequiresMergedGet(target: Json, incoming: Json, k: string)
    ensures target.JNull? ==> RequiresMerged(target, incoming) == incoming
    ensures target.JObj? ==> RequiresMerged(target, incoming).JObj?
    ensures target.JObj? && HasKey(target.fields, k)
      ==> Get(RequiresMerged(target, incoming).fields, k) == Get(target.fields, k)
    ensures target.JObj? && !HasKey(target.fields, k)
      ==> Get(RequiresMerged(target, incoming).fields, k) == Member(incoming, k)
  {
    if target.JObj? && incoming.JObj? {
      MissingAddedGet(target.fields, incoming.fields, 0, k);
      assert incoming.fields[0..] == incoming.fields;
    }
  }

  // ---------------------------------------------------------------------------
  // One node, and the walk
  // ---------------------------------------------------------------------------

  /** A string `type` goes to the actions when it starts with `Action.` and
      to the elements otherwise, setting the flag it stands for. */
  function Typed(t: Tally, kind: string): (r: Tally)
    requires Ordered(t)
    ensures Ordered(r)
  {
    if StartsWith(kind, "Action.") then
      t.(actions := InsertSorted(t.actions, kind),
         showCard := t.showCard || kind == "Action.ShowCard",
         toggle := t.toggle || kind == "Action.ToggleVisibility")
    else
      t.(elements := InsertSorted(t.elements, kind), media := t.media || kind == "Media")
  }

  /** The type step at one object, when it has a string type. */
  function TypedNode(fs: seq<Field>, t: Tally): (r: Tally)
    requires Ordered(t)
    ensures Ordered(r) && r.auth == t.auth && r.required == t.required
  {
    match TypeOf(fs)
    case Some(kind) => Typed(t, kind)
    case None => t
  }

  /** The `authentication` and `requires` steps at one object. */
  function Declared(fs: seq<Field>, t: Tally): (r: Tally)
    ensures r.elements == t.elements && r.actions == t.actions
    ensures r.showCard == t.showCard && r.toggle == t.toggle && r.media == t.media
  {
    var authed := if HasKey(fs, "authentication") then t.(auth := true) else t;
    match Get(fs, "requires")
    case Some(req) => authed.(required := RequiresMerged(authed.required, req))
    case None => authed
  }

  /** What the walk records at one object, before its values are visited. */
  function Visit(fs: seq<Field>, t: Tally): (r: Tally)
    requires Ordered(t)
    ensures Ordered(r)
  {
    Declared(fs, TypedNode(fs, t))
  }

  /** The tally after walking `v`. */
  function Walked(v: Json, t: Tally): (r: Tally)
    requires Ordered(t)
    ensures Ordered(r)
    decreases v, 1
  {
    match v
    case JObj(fs) => WalkedFields(v, 0, Visit(fs, t))
    case JArr(_) => WalkedItems(v, 0, t)
    case _ => t
  }

  function WalkedItems(v: Json, i: nat, t: Tally): (r: Tally)
    requires v.JArr? && i <= |v.items| && Ordered(t)
    ensures Ordered(r)
    decreases v, 0, |v.items| - i
  {
    if i == |v.items| then t else WalkedItems(v, i + 1, Walked(v.items[i], t))
  }

  function WalkedFields(v: Json, i: nat, t: Tally): (r: Tally)
    requires v.JObj? && i <= |v.fields| && Ordered(t)
    ensures Ordered(r)
    decreases v, 0, |v.fields| - i
  {
    if i == |v.fields| then t else WalkedFields(v, i + 1, Walked(v.fields[i].val, t))
  }

  /** The type step of `walk`: insert into one of the two sets and set the
      flag the type stands for. */
  method RecordType(t: Tally, kind: string) returns (r: Tally)
    requires Ordered(t)
    ensures r == Typed(t, kind)
  {
    r := t;
    if StartsWith(kind, "Action.") {
      r := r.(actions := InsertSorted(r.actions, kind));
      if kind == "Action.ShowCard" {
        r := r.(showCard := true);
      }
      if kind == "Action.ToggleVisibility" {
        r := r.(toggle := true);
      }
    } else {
      r := r.(elements := InsertSorted(r.elements, kind));
      if kind == "Media" {
        r := r.(media := true);
      }
    }
  }

  /** The node step of `walk`: sort the type, set the flags, merge
      `requires`. */
  method Record(fs: seq<Field>, t: Tally) returns (r: Tally)
    requires Ordered(t)
    ensures r == Visit(fs, t)
  {
    r := t;
    var kind := TypeOf(fs);
    if kind.Some? {
      r := RecordType(r, kind.value);
    }
    if HasKey(fs, "authentication") {
      r := r.(auth := true);
    }
    var req := Get(fs, "requires");
    if req.Some? {
      var merged := MergeRequires(r.required, req.value);
      r := r.(required := merged);
    }
  }

  /** `walk`: record the node, then visit its values or items in order. */
  method Walk(v: Json, t: Tally) returns (r: Tally)
    requires Ordered(t)
    ensures r == Walked(v, t)
    decreases v
  {
    match v {
      case JObj(fs) =>
        r := Record(fs, t);
        for i := 0 to |fs|
          invariant Ordered(r)
          invariant WalkedFields(v, i, r) == Walked(v, t)
        {
          r := Walk(fs[i].val, r);
        }
      case JArr(items) =>
        r := t;
        for i := 0 to |items|
          invariant Ordered(r)
          invariant WalkedItems(v, i, r) == Walked(v, t)
        {
          r := Walk(items[i], r);
        }
      case _ =>
        r := t;
    }
  }

  /** The summary `analyze_features` returns for `card`. */
  function Features(card: Json): FeatureSummary
  {
    var t := Walked(card, Start());
    FeatureSummary(StrMember(card, "version"), t.elements, t.actions,
                   t.showCard, t.toggle, t.media, t.auth, t.required)
  }

  /** `analyze_features`. */
  method AnalyzeFeatures(card: Json) returns (summary: FeatureSummary)
    ensures summary == Features(card)
  {
    var t := Walk(card, Start());
    summary := FeatureSummary(StrMember(card, "version"), t.elements, t.actions,
                              t.showCard, t.toggle, t.media, t.auth, t.required);
  }

  // ---------------------------------------------------------------------------
  // The walk as a fold over the card's objects
  // ---------------------------------------------------------------------------

  /** Every object in `v`, in the order the walk reaches them. */
  function Objects(v: Json): seq<seq<Field>>
    decreases v, 1
  {
    match v
    case JObj(fs) => [fs] + ObjectsFields(v, 0)
    case JArr(_) => ObjectsItems(v, 0)
    case _ => []
  }

  function ObjectsItems(v: Json, i: nat): seq<seq<Field>>
    requires v.JArr? && i <= |v.items|
    decreases v, 0, |v.items| - i
  {
    if i == |v.items| then [] else Objects(v.items[i]) + ObjectsItems(v, i + 1)
  }

  function ObjectsFields(v: Json, i: nat): seq<seq<Field>>
    requires v.JObj? && i <= |v.fields|
    decreases v, 0, |v.fields| - i
  {
    if i == |v.fields| then [] else Objects(v.fields[i].val) + ObjectsFields(v, i + 1)
  }

  /** The node step applied to each object in turn. */
  function VisitAll(nodes: seq<seq<Field>>, t: Tally): (r: Tally)
    requires Ordered(t)
    ensures Ordered(r)
  {
    if nodes == [] then t else VisitAll(nodes[1..], Visit(nodes[0], t))
  }

  lemma {:induction false} VisitAllAppend(a: seq<seq<Field>>, b: seq<seq<Field>>, t: Tally)
    requires Ordered(t)
    ensures VisitAll(a + b, t) == VisitAll(b, VisitAll(a, t))
  {
    if a == [] {
      assert a + b == b;
    } else {
      assert (a + b)[0] == a[0] && (a + b)[1..] == a[1..] + b;
      VisitAllAppend(a[1..], b, Visit(a[0], t));
    }
  }

  /** The recursive walk is the node step folded over the card's objects. */
  lemma {:induction false} WalkedFlat(v: Json, t: Tally)
    requires Ordered(t)
    ensures Walked(v, t) == VisitAll(Objects(v), t)
    decreases v, 1
  {
    match v
    case JObj(fs) =>
      WalkedFieldsFlat(v, 0, Visit(fs, t));
      assert ([fs] + ObjectsFields(v, 0))[1..] == ObjectsFields(v, 0);
    case JArr(_) =>
      WalkedItemsFlat(v, 0, t);
    case _ =>
  }

  lemma {:induction false} WalkedItemsFlat(v: Json, i: nat, t: Tally)
    requires v.JArr? && i <= |v.items| && Ordered(t)
    ensures WalkedItems(v, i, t) == VisitAll(ObjectsItems(v, i), t)
    decreases v, 0, |v.items| - i
  {
    if i < |v.items| {
      WalkedFlat(v.items[i], t);
      WalkedItemsFlat(v, i + 1, Walked(v.items[i], t));
      VisitAllAppend(Objects(v.items[i]), ObjectsItems(v, i + 1), t);
    }
  }

  lemma {:induction false} WalkedFieldsFlat(v: Json, i: nat, t: Tally)
    requires v.JObj? && i <= |v.fields| && Ordered(t)
    ensures WalkedFields(v, i, t) == VisitAll(ObjectsFields(v, i), t)
    decreases v, 0, |v.fields| - i
  {
    if i < |v.fields| {
      WalkedFlat(v.fields[i].val, t);
      WalkedFieldsFlat(v, i + 1, Walked(v.fields[i].val, t));
      VisitAllAppend(Objects(v.fields[i].val), ObjectsFields(v, i + 1), t);
    }
  }

  // ---------------------------------------------------------------------------
  // Properties of the fold
  // ---------------------------------------------------------------------------

  /** Some object among `nodes` has the string type `kind`. */
  ghost predicate Declares(nodes: seq<seq<Field>>, kind: string)
  {
    exists j :: 0 <= j < |nodes| && TypeOf(nodes[j]) == Some(kind)
  }

  /** Some object among `nodes` has an `authentication` key. */
  ghost predicate Authenticates(nodes: seq<seq<Field>>)
  {
    exists j :: 0 <= j < |nodes| && HasKey(nodes[j], "authentication")
  }

  lemma DeclaresCons(nodes: seq<seq<Field>>, kind: string)
    requires nodes != []
    ensures Declares(nodes, kind) <==> TypeOf(nodes[0]) == Some(kind) || Declares(nodes[1..], kind)
  {
    if Declares(nodes, kind) && TypeOf(nodes[0]) != Some(kind) {
      var j :| 0 <= j < |nodes| && TypeOf(nodes[j]) == Some(kind);
      assert TypeOf(nodes[1..][j - 1]) == Some(kind);
    }
    if Declares(nodes[1..], kind) {
      var j :| 0 <= j < |nodes| - 1 && TypeOf(nodes[1..][j]) == Some(kind);
      assert TypeOf(nodes[j + 1]) == Some(kind);
    }
  }

  lemma AuthenticatesCons(nodes: seq<seq<Field>>)
    requires nodes != []
    ensures Authenticates(nodes) <==> HasKey(nodes[0], "authentication") || Authenticates(nodes[1..])
  {
    if Authenticates(nodes) && !HasKey(nodes[0], "authentication") {
      var j :| 0 <= j < |nodes| && HasKey(nodes[j], "authentication");
      assert HasKey(nodes[1..][j - 1], "authentication");
    }
    if Authenticates(nodes[1..]) {
      var j :| 0 <= j < |nodes| - 1 && HasKey(nodes[1..][j], "authentication");
      assert HasKey(nodes[j + 1], "authentication");
    }
  }

  /** The three flagged types are sorted by their prefix as expected. */
  lemma FlaggedPrefixes()
    ensures StartsWith("Action.ShowCard", "Action.")
    ensures StartsWith("Action.ToggleVisibility", "Action.")
    ensures !StartsWith("Media", "Action.")
  {
    assert "Action.ShowCard"[..7] == "Action.";
    assert "Action.ToggleVisibility"[..7] == "Action.";
  }

  /** The type step on the two sets. */
  lemma TypedTypes(t: Tally, k: string, kind: string)
    requires Ordered(t)
    ensures kind in Typed(t, k).actions <==> kind in t.actions || (k == kind && StartsWith(kind, "Action."))
    ensures kind in Typed(t, k).elements <==> kind in t.elements || (k == kind && !StartsWith(kind, "Action."))
  {
  }

  /** The node step on the two sets. */
  lemma VisitTypes(fs: seq<Field>, t: Tally, kind: string)
    requires Ordered(t)
    ensures kind in Visit(fs, t).actions
      <==> kind in t.actions || (TypeOf(fs) == Some(kind) && StartsWith(kind, "Action."))
    ensures kind in Visit(fs, t).elements
      <==> kind in t.elements || (TypeOf(fs) == Some(kind) && !StartsWith(kind, "Action."))
  {
    if TypeOf(fs).Some? {
      TypedTypes(t, TypeOf(fs).value, kind);
    }
  }

  /** The node step on the flags. */
  lemma VisitFlags(fs: seq<Field>, t: Tally)
    requires Ordered(t)
    ensures Visit(fs, t).showCard <==> t.showCard || TypeOf(fs) == Some("Action.ShowCard")
    ensures Visit(fs, t).toggle <==> t.toggle || TypeOf(fs) == Some("Action.ToggleVisibility")
    ensures Visit(fs, t).media <==> t.media || TypeOf(fs) == Some("Media")
    ensures Visit(fs, t).auth <==> t.auth || HasKey(fs, "authentication")
  {
    FlaggedPrefixes();
  }

  /** The node step on `requires`. */
  lemma VisitRequired(fs: seq<Field>, t: Tally)
    requires Ordered(t)
    ensures Visit(fs, t).required
      == match Get(fs, "requires") case Some(req) => RequiresMerged(t.required, req) case None => t.required
  {
  }

  /** What the fold collects: a type is an action exactly when it starts
      with `Action.` and some object declares it, and an element exactly when
      it does not and some object declares it. */
  lemma {:induction false} VisitAllTypes(nodes: seq<seq<Field>>, t: Tally, kind: string)
    requires Ordered(t)
    ensures kind in VisitAll(nodes, t).actions
      <==> kind in t.actions || (StartsWith(kind, "Action.") && Declares(nodes, kind))
    ensures kind in VisitAll(nodes, t).elements
      <==> kind in t.elements || (!StartsWith(kind, "Action.") && Declares(nodes, kind))
  {
    if nodes != [] {
      VisitTypes(nodes[0], t, kind);
      VisitAllTypes(nodes[1..], Visit(nodes[0], t), kind);
      DeclaresCons(nodes, kind);
    }
  }

  /** Each flag is set exactly when its type, or an `authentication` key,
      occurs in some object. */
  lemma {:induction false} VisitAllFlags(nodes: seq<seq<Field>>, t: Tally)
    requires Ordered(t)
    ensures VisitAll(nodes, t).showCard <==> t.showCard || Declares(nodes, "Action.ShowCard")
    ensures VisitAll(nodes, t).toggle <==> t.toggle || Declares(nodes, "Action.ToggleVisibility")
    ensures VisitAll(nodes, t).media <==> t.media || Declares(nodes, "Media")
    ensures VisitAll(nodes, t).auth <==> t.auth || Authenticates(nodes)
  {
    if nodes != [] {
      VisitFlags(nodes[0], t);
      VisitAllFlags(nodes[1..], Visit(nodes[0], t));
      DeclaresCons(nodes, "Action.ShowCard");
      DeclaresCons(nodes, "Action.ToggleVisibility");
      DeclaresCons(nodes, "Media");
      AuthenticatesCons(nodes);
    }
  }

  /** Once `requires` is an object, it stays one and every key it declares
      keeps its first value to the end of the walk. */
  lemma {:induction false} VisitAllKeepsRequires(nodes: seq<seq<Field>>, t: Tally, k: string)
    requires Ordered(t) && t.required.JObj? && HasKey(t.required.fields, k)
    ensures VisitAll(nodes, t).required.JObj?
    ensures Get(VisitAll(nodes, t).required.fields, k) == Get(t.required.fields, k)
  {
    if nodes != [] {
      VisitRequired(nodes[0], t);
      var req := Get(nodes[0], "requires");
      if req.Some? {
        RequiresMergedGet(t.required, req.value, k);
      }
      VisitAllKeepsRequires(nodes[1..], Visit(nodes[0], t), k);
    }
  }

  /** A strictly ordered list has no repeated entry. */
  lemma SortedDistinct(xs: seq<string>)
    requires Sorted(xs)
    ensures forall i, j :: 0 <= i < j < |xs| ==> xs[i] != xs[j]
  {
    forall i, j | 0 <= i < j < |xs|
      ensures xs[i] != xs[j]
    {
      if xs[i] == xs[j] {
        LessIrreflexive(xs[i]);
      }
    }
  }

  /** The summary of a card: both lists sorted and duplicate-free, a type in
      `used_actions` exactly when it starts with `Action.` and some object of
      the card has it, in `used_elements` exactly when it does not, and the
      flags set exactly when their types (or an `authentication` key) occur. */
  lemma FeaturesSpec(card: Json, kind: string)
    ensures var s := Features(card);
      && Sorted(s.usedElements) && Sorted(s.usedActions)
      && (forall i, j :: 0 <= i < j < |s.usedElements| ==> s.usedElements[i] != s.usedElements[j])
      && (forall i, j :: 0 <= i < j < |s.usedActions| ==> s.usedActions[i] != s.usedActions[j])
      && (kind in s.usedActions <==> StartsWith(kind, "Action.") && Declares(Objects(card), kind))
      && (kind in s.usedElements <==> !StartsWith(kind, "Action.") && Declares(Objects(card), kind))
      && (s.usesShowCard <==> Declares(Objects(card), "Action.ShowCard"))
      && (s.usesToggleVisibility <==> Declares(Objects(card), "Action.ToggleVisibility"))
      && (s.usesMedia <==> Declares(Objects(card), "Media"))
      && (s.usesAuth <==> Authenticates(Objects(card)))
      && s.version == StrMember(card, "version")
  {
    WalkedFlat(card, Start());
    VisitAllTypes(Objects(card), Start(), kind);
    VisitAllFlags(Objects(card), Start());
    var t := Walked(card, Start());
    SortedDistinct(t.elements);
    SortedDistinct(t.actions);
  }

  /** The first `requires` declaration of a key wins for the whole card: once
      the merged value is an object holding `k`, no later object changes it. */
  lemma FeaturesRequiresFirstWins(card: Json, j: nat, k: string)
    requires j <= |Objects(card)|
    requires VisitAll(Objects(card)[..j], Start()).required.JObj?
    requires HasKey(VisitAll(Objects(card)[..j], Start()).required.fields, k)
    ensures Features(card).requiresFeatures.JObj?
    ensures Get(Features(card).requiresFeatures.fields, k)
      == Get(VisitAll(Objects(card)[..j], Start()).required.fields, k)
  {
    var nodes := Objects(card);
    WalkedFlat(card, Start());
    assert nodes == nodes[..j] + nodes[j..];
    VisitAllAppend(nodes[..j], nodes[j..], Start());
    VisitAllKeepsRequires(nodes[j..], VisitAll(nodes[..j], Start()), k);
  }
}
