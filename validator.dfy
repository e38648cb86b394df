/** The structural checks on a rendered card (`validate_card` and
    `validate_action` in src/render.rs). The root gets its own checks; then
    every object of the card is visited in pre-order with its JSON-pointer
    path, two id sets are threaded through, and issues are appended in visit
    order. `VisitedFlat` proves the recursive visit equal to a fold of one node
    step over the card's objects, and the properties are proved on the fold. */
module Validator {
  import opened Wrappers
  import opened Text
  import opened JsonValue
  import opened Model
  import Features

  /** `push_issue`. */
  function Issue(path: string, code: string, message: string): ValidationIssue
  {
    ValidationIssue(code, message, path)
  }

  /** What the visit threads through the card. */
  datatype Checked = Checked(issues: seq<ValidationIssue>, inputIds: set<string>, actionIds: set<string>)

  /** `get(k).and_then(as_str).map(|s| !s.is_empty()).unwrap_or(false)`. */
  predicate NonEmptyString(o: Option<Json>)
  {
    o.Some? && o.value.JStr? && o.value.s != []
  }

  /** A choice with a non-empty string title and value. */
  predicate ValidChoice(c: Json)
  {
    NonEmptyString(Member(c, "title")) && NonEmptyString(Member(c, "value"))
  }

  /** A media source with a non-empty string url. */
  predicate ValidSource(s: Json)
  {
    NonEmptyString(Member(s, "url"))
  }

  /** The object's string `type`, or the empty string. */
  function Kind(fs: seq<Field>): string
  {
    Features.TypeOf(fs).GetOr("")
  }

  /** The object's `id` when it is a string. */
  function IdOf(fs: seq<Field>): Option<string>
  {
    match Get(fs, "id")
    case Some(JStr(id)) => Some(id)
    case _ => None
  }

  // ---------------------------------------------------------------------------
  // The checks at one object
  // ---------------------------------------------------------------------------

  /** `validate_action`: the per-type checks of an action. */
  function ActionIssues(fs: seq<Field>, path: string): seq<ValidationIssue>
  {
    var kind := Kind(fs);
    if kind == "Action.OpenUrl" then
      if !NonEmptyString(Get(fs, "url")) then [Issue(path, "missing-url", "Action.OpenUrl must include a url")] else []
    else if kind == "Action.Execute" then
      (if !(Get(fs, "verb").Some? && Get(fs, "verb").value.JStr?)
       then [Issue(path, "missing-verb", "Action.Execute should include a verb")] else [])
      + (if Get(fs, "data").Some? && !Get(fs, "data").value.JObj? && !Get(fs, "data").value.JNull?
         then [Issue(path, "invalid-data", "Action.Execute data should be an object when present")] else [])
    else if kind == "Action.ShowCard" then
      (if !HasKey(fs, "card") then [Issue(path, "missing-card", "Action.ShowCard must include a card")] else [])
      + (if Get(fs, "card").Some? && !Get(fs, "card").value.JObj?
         then [Issue(path, "invalid-card", "Action.ShowCard card must be an object")] else [])
    else if kind == "Action.ToggleVisibility" then
      if !HasKey(fs, "targetElements") then
        [Issue(path, "missing-target-elements", "Action.ToggleVisibility must include targetElements")]
      else if Get(fs, "targetElements").value == JArr([]) then
        [Issue(path, "empty-target-elements", "Action.ToggleVisibility targetElements must not be empty")]
      else []
    else []
  }

  /** The checks of `Input.ChoiceSet`. */
  function ChoiceIssues(fs: seq<Field>, path: string): seq<ValidationIssue>
  {
    match Get(fs, "choices")
    case None => [Issue(path, "missing-choices", "Input.ChoiceSet must include choices")]
    case Some(JArr(choices)) =>
      if choices == [] then [Issue(path, "empty-choices", "Input.ChoiceSet must include at least one choice")]
      else if exists i :: 0 <= i < |choices| && !ValidChoice(choices[i]) then
        [Issue(path, "invalid-choice", "Choices must include non-empty title and value")]
      else []
    case Some(_) => [Issue(path, "invalid-choices", "Input.ChoiceSet choices must be an array")]
  }

  /** The checks of `Media`. */
  function MediaIssues(fs: seq<Field>, path: string): seq<ValidationIssue>
  {
    match Get(fs, "sources")
    case None => [Issue(path, "missing-sources", "Media must include sources")]
    case Some(JArr(sources)) =>
      if sources == [] then [Issue(path, "missing-sources", "Media must include at least one source")]
      else if exists i :: 0 <= i < |sources| && !ValidSource(sources[i]) then
        [Issue(path, "invalid-source", "Media sources must include non-empty url")]
      else []
    case Some(_) => [Issue(path, "invalid-sources", "Media sources must be an array")]
  }

  /** The `match kind` checks of elements and inputs. */
  function KindIssues(fs: seq<Field>, path: string): seq<ValidationIssue>
  {
    var kind := Kind(fs);
    if kind == "Input.ChoiceSet" then ChoiceIssues(fs, path)
    else if kind == "Input.Toggle" then
      if (match Get(fs, "title") case Some(JStr(title)) => title case _ => "") == []
      then [Issue(path, "missing-title", "Input.Toggle should include a title")] else []
    else if kind == "Input.Number" then
      match (Get(fs, "min"), Get(fs, "max"))
      case (Some(JNum(lo)), Some(JNum(hi))) =>
        if lo > hi then [Issue(path, "invalid-range", "Input.Number min must be <= max")] else []
      case _ => []
    else if kind == "ColumnSet" then
      match Get(fs, "columns")
      case Some(JArr(columns)) =>
        if columns == [] then [Issue(path, "empty-columns", "ColumnSet columns must not be empty")] else []
      case Some(_) => [Issue(path, "invalid-columns", "ColumnSet columns must be an array")]
      case None => []
    else if kind == "Media" then MediaIssues(fs, path)
    else []
  }

  /** A missing `id` on an input. */
  function MissingId(fs: seq<Field>, path: string): seq<ValidationIssue>
  {
    if StartsWith(Kind(fs), "Input.") && !HasKey(fs, "id") then [Issue(path, "missing-id", "Inputs must include an id")] else []
  }

  /** The action checks, for an action. */
  function ActionPart(fs: seq<Field>, path: string): seq<ValidationIssue>
  {
    if StartsWith(Kind(fs), "Action.") then ActionIssues(fs, path) else []
  }

  /** The checks that do not depend on the id sets: a missing input id, the
      action's checks, and the element or input checks. */
  function StaticIssues(fs: seq<Field>, path: string): seq<ValidationIssue>
  {
    MissingId(fs, path) + ActionPart(fs, path) + KindIssues(fs, path)
  }

  /** The object's string id was already seen in its family's set. */
  predicate Repeats(fs: seq<Field>, ids: set<string>, family: string)
  {
    StartsWith(Kind(fs), family) && IdOf(fs).Some? && IdOf(fs).value in ids
  }

  /** The issue pushed for a repeated id. */
  function Duplicate(fs: seq<Field>, path: string, ids: set<string>, family: string, code: string, message: string)
    : seq<ValidationIssue>
  {
    if Repeats(fs, ids, family) then [Issue(path, code, message)] else []
  }

  const InputDuplicate := "Input ids should be unique within the card"
  const ActionDuplicate := "Action ids should be unique within the card"

  /** The issues appended at one object, in the order `visit` pushes them. */
  function NodeIssues(fs: seq<Field>, path: string, inputIds: set<string>, actionIds: set<string>): seq<ValidationIssue>
  {
    MissingId(fs, path) + Duplicate(fs, path, inputIds, "Input.", "duplicate-id", InputDuplicate)
    + Duplicate(fs, path, actionIds, "Action.", "duplicate-action-id", ActionDuplicate)
    + ActionPart(fs, path) + KindIssues(fs, path)
  }

  /** The id set after one object: its string id is added when the object
      is of the given family (`Input.` or `Action.`). */
  function WithId(fs: seq<Field>, ids: set<string>, family: string): set<string>
  {
    if StartsWith(Kind(fs), family) && IdOf(fs).Some? then ids + {IdOf(fs).value} else ids
  }

  /** One object's step of `visit`, before its children. */
  function CheckNode(fs: seq<Field>, path: string, st: Checked): Checked
  {
    Checked(st.issues + MissingId(fs, path) + Duplicate(fs, path, st.inputIds, "Input.", "duplicate-id", InputDuplicate)
            + Duplicate(fs, path, st.actionIds, "Action.", "duplicate-action-id", ActionDuplicate)
            + ActionPart(fs, path) + KindIssues(fs, path),
            WithId(fs, st.inputIds, "Input."), WithId(fs, st.actionIds, "Action."))
  }

  /** The step appends the object's issues. */
  lemma CheckNodeIssues(fs: seq<Field>, path: string, st: Checked)
    ensures CheckNode(fs, path, st).issues == st.issues + NodeIssues(fs, path, st.inputIds, st.actionIds)
  {
    Regroup(st.issues, MissingId(fs, path), Duplicate(fs, path, st.inputIds, "Input.", "duplicate-id", InputDuplicate),
            Duplicate(fs, path, st.actionIds, "Action.", "duplicate-action-id", ActionDuplicate),
            ActionPart(fs, path), KindIssues(fs, path));
  }

  lemma Regroup<T>(s: seq<T>, a: seq<T>, b: seq<T>, c: seq<T>, d: seq<T>, e: seq<T>)
    ensures s + a + b + c + d + e == s + (a + b + c + d + e)
  {
  }

  // ---------------------------------------------------------------------------
  // The visit
  // ---------------------------------------------------------------------------

  /** The path of a child: `format!("{}/{}", path, key)`. */
  function ChildPath(path: string, key: string): string
  {
    path + "/" + key
  }

  function Visited(v: Json, path: string, st: Checked): Checked
    decreases v, 1
  {
    match v
    case JObj(fs) => VisitedFields(v, 0, path, CheckNode(fs, path, st))
    case JArr(_) => VisitedItems(v, 0, path, st)
    case _ => st
  }

  function VisitedItems(v: Json, i: nat, path: string, st: Checked): Checked
    requires v.JArr? && i <= |v.items|
    decreases v, 0, |v.items| - i
  {
    if i == |v.items| then st
    else VisitedItems(v, i + 1, path, Visited(v.items[i], ChildPath(path, NatToString(i)), st))
  }

  function VisitedFields(v: Json, i: nat, path: string, st: Checked): Checked
    requires v.JObj? && i <= |v.fields|
    decreases v, 0, |v.fields| - i
  {
    if i == |v.fields| then st
    else VisitedFields(v, i + 1, path, Visited(v.fields[i].val, ChildPath(path, v.fields[i].key), st))
  }

  /** Insert the object's string id into `ids` when it belongs to `family`,
      pushing `code` when the id was already there. */
  method InsertId(fs: seq<Field>, path: string, issues: seq<ValidationIssue>, ids: set<string>,
                  family: string, code: string, message: string)
    returns (issues': seq<ValidationIssue>, ids': set<string>)
    ensures ids' == WithId(fs, ids, family)
    ensures issues' == issues + Duplicate(fs, path, ids, family, code, message)
  {
    issues', ids' := issues, ids;
    var id := IdOf(fs);
    if StartsWith(Kind(fs), family) && id.Some? {
      var inserted := id.value !in ids;
      ids' := ids + {id.value};
      if !inserted {
        issues' := issues + [Issue(path, code, message)];
      }
    }
  }

  /** The checks at one object, pushing onto the issue list and inserting
      into the id sets as `visit` does. */
  method CheckObject(fs: seq<Field>, path: string, st: Checked) returns (r: Checked)
    ensures r == CheckNode(fs, path, st)
  {
    var issues := st.issues;
    var kind := Kind(fs);
    if StartsWith(kind, "Input.") && !HasKey(fs, "id") {
      issues := issues + [Issue(path, "missing-id", "Inputs must include an id")];
    }
    assert issues == st.issues + MissingId(fs, path);
    var inputIds, actionIds;
    issues, inputIds := InsertId(fs, path, issues, st.inputIds, "Input.", "duplicate-id", InputDuplicate);
    issues, actionIds := InsertId(fs, path, issues, st.actionIds, "Action.", "duplicate-action-id", ActionDuplicate);
    if StartsWith(kind, "Action.") {
      issues := issues + ActionIssues(fs, path);
    }
    issues := issues + KindIssues(fs, path);
    r := Checked(issues, inputIds, actionIds);
  }

  /** `visit`: check the object, then its values or items with their paths. */
  method Visit(v: Json, path: string, st: Checked) returns (r: Checked)
    ensures r == Visited(v, path, st)
    decreases v
  {
    match v {
      case JObj(fs) =>
        r := CheckObject(fs, path, st);
        for i := 0 to |fs|
          invariant VisitedFields(v, i, path, r) == Visited(v, path, st)
        {
          r := Visit(fs[i].val, ChildPath(path, fs[i].key), r);
        }
      case JArr(items) =>
        r := st;
        for i := 0 to |items|
          invariant VisitedItems(v, i, path, r) == Visited(v, path, st)
        {
          r := Visit(items[i], ChildPath(path, NatToString(i)), r);
        }
      case _ =>
        r := st;
    }
  }

  /** The root checks made before the visit. */
  function RootIssues(fs: seq<Field>): seq<ValidationIssue>
  {
    (if Features.TypeOf(fs) != Some("AdaptiveCard") then [Issue("/type", "invalid-type", "Root type must be AdaptiveCard")] else [])
    + (if Get(fs, "version").None? then [Issue("/version", "missing-version", "AdaptiveCard must include a version")] else [])
    + (if Get(fs, "body").Some? && !Get(fs, "body").value.JArr? then [Issue("/body", "invalid-body", "body must be an array")] else [])
    + (if Get(fs, "actions").Some? && !Get(fs, "actions").value.JArr?
       then [Issue("/actions", "invalid-actions", "actions must be an array")] else [])
  }

  /** The issues `validate_card` reports. */
  function CardIssues(card: Json): seq<ValidationIssue>
  {
    match card
    case JObj(fs) => Visited(card, "", Checked(RootIssues(fs), {}, {})).issues
    case _ => [Issue("/", "invalid-root", "Card must be a JSON object")]
  }

  /** `validate_card`. */
  method ValidateCard(card: Json) returns (issues: seq<ValidationIssue>)
    ensures issues == CardIssues(card)
  {
    issues := [];
    if !card.JObj? {
      issues := issues + [Issue("/", "invalid-root", "Card must be a JSON object")];
      return;
    }
    var fs := card.fields;
    if Features.TypeOf(fs) != Some("AdaptiveCard") {
      issues := issues + [Issue("/type", "invalid-type", "Root type must be AdaptiveCard")];
    }
    if Get(fs, "version").None? {
      issues := issues + [Issue("/version", "missing-version", "AdaptiveCard must include a version")];
    }
    if Get(fs, "body").Some? && !Get(fs, "body").value.JArr? {
      issues := issues + [Issue("/body", "invalid-body", "body must be an array")];
    }
    if Get(fs, "actions").Some? && !Get(fs, "actions").value.JArr? {
      issues := issues + [Issue("/actions", "invalid-actions", "actions must be an array")];
    }
    assert issues == RootIssues(fs);
    var checked := Visit(card, "", Checked(issues, {}, {}));
    issues := checked.issues;
  }

  // ---------------------------------------------------------------------------
  // The visit as a fold over the card's objects
  // ---------------------------------------------------------------------------

  /** An object of the card with the path `visit` gives it. */
  datatype Node = Node(fields: seq<Field>, path: string)

  /** Every object in `v`, with its path, in the order `visit` reaches them. */
  function Nodes(v: Json, path: string): seq<Node>
    decreases v, 1
  {
    match v
    case JObj(fs) => [Node(fs, path)] + NodesFields(v, 0, path)
    case JArr(_) => NodesItems(v, 0, path)
    case _ => []
  }

  function NodesItems(v: Json, i: nat, path: string): seq<Node>
    requires v.JArr? && i <= |v.items|
    decreases v, 0, |v.items| - i
  {
    if i == |v.items| then [] else Nodes(v.items[i], ChildPath(path, NatToString(i))) + NodesItems(v, i + 1, path)
  }

  function NodesFields(v: Json, i: nat, path: string): seq<Node>
    requires v.JObj? && i <= |v.fields|
    decreases v, 0, |v.fields| - i
  {
    if i == |v.fields| then []
    else Nodes(v.fields[i].val, ChildPath(path, v.fields[i].key)) + NodesFields(v, i + 1, path)
  }

  /** The node step applied to each object in turn. */
  function CheckAll(nodes: seq<Node>, st: Checked): Checked
  {
    if nodes == [] then st
    else
      var last := nodes[|nodes| - 1];
      CheckNode(last.fields, last.path, CheckAll(nodes[..|nodes| - 1], st))
  }

  lemma {:induction false} CheckAllAppend(a: seq<Node>, b: seq<Node>, st: Checked)
    ensures CheckAll(a + b, st) == CheckAll(b, CheckAll(a, st))
    decreases |b|
  {
    if b == [] {
      assert a + b == a;
    } else {
      var init := b[..|b| - 1];
      assert (a + b)[..|a + b| - 1] == a + init;
      assert (a + b)[|a + b| - 1] == b[|b| - 1];
      CheckAllAppend(a, init, st);
    }
  }

  /** The recursive visit is the node step folded over the card's objects. */
  lemma {:induction false} VisitedFlat(v: Json, path: string, st: Checked)
    ensures Visited(v, path, st) == CheckAll(Nodes(v, path), st)
    decreases v, 1
  {
    match v
    case JObj(fs) =>
      var node := Node(fs, path);
      VisitedFieldsFlat(v, 0, path, CheckNode(fs, path, st));
      CheckAllAppend([node], NodesFields(v, 0, path), st);
      assert CheckAll([node], st) == CheckNode(fs, path, CheckAll([], st));
    case JArr(_) =>
      VisitedItemsFlat(v, 0, path, st);
    case _ =>
  }

  lemma {:induction false} VisitedItemsFlat(v: Json, i: nat, path: string, st: Checked)
    requires v.JArr? && i <= |v.items|
    ensures VisitedItems(v, i, path, st) == CheckAll(NodesItems(v, i, path), st)
    decreases v, 0, |v.items| - i
  {
    if i < |v.items| {
      var child := ChildPath(path, NatToString(i));
      VisitedFlat(v.items[i], child, st);
      VisitedItemsFlat(v, i + 1, path, Visited(v.items[i], child, st));
      CheckAllAppend(Nodes(v.items[i], child), NodesItems(v, i + 1, path), st);
    }
  }

  lemma {:induction false} VisitedFieldsFlat(v: Json, i: nat, path: string, st: Checked)
    requires v.JObj? && i <= |v.fields|
    ensures VisitedFields(v, i, path, st) == CheckAll(NodesFields(v, i, path), st)
    decreases v, 0, |v.fields| - i
  {
    if i < |v.fields| {
      var child := ChildPath(path, v.fields[i].key);
      VisitedFlat(v.fields[i].val, child, st);
      VisitedFieldsFlat(v, i + 1, path, Visited(v.fields[i].val, child, st));
      CheckAllAppend(Nodes(v.fields[i].val, child), NodesFields(v, i + 1, path), st);
    }
  }

  // ---------------------------------------------------------------------------
  // Properties of the fold
  // ---------------------------------------------------------------------------

  /** The string ids of the objects of one family among `nodes`. */
  function FamilyIds(nodes: seq<Node>, family: string): set<string>
  {
    if nodes == [] then {}
    else WithId(nodes[|nodes| - 1].fields, FamilyIds(nodes[..|nodes| - 1], family), family)
  }

  /** An id is in the family's set exactly when some object of that family
      carries it. */
  lemma {:induction false} FamilyIdsSpec(nodes: seq<Node>, family: string, id: string)
    ensures id in FamilyIds(nodes, family)
      <==> exists j :: 0 <= j < |nodes| && StartsWith(Kind(nodes[j].fields), family) && IdOf(nodes[j].fields) == Some(id)
  {
    if nodes != [] {
      var init := nodes[..|nodes| - 1];
      FamilyIdsSpec(init, family, id);
      if id in FamilyIds(init, family) {
        var j :| 0 <= j < |init| && StartsWith(Kind(init[j].fields), family) && IdOf(init[j].fields) == Some(id);
        assert nodes[j] == init[j];
      }
      if exists j :: 0 <= j < |nodes| && StartsWith(Kind(nodes[j].fields), family) && IdOf(nodes[j].fields) == Some(id) {
        var j :| 0 <= j < |nodes| && StartsWith(Kind(nodes[j].fields), family) && IdOf(nodes[j].fields) == Some(id);
        if j < |init| {
          assert init[j] == nodes[j];
        }
      }
    }
  }

  /** The id sets after the fold hold the ids seen before and those of the
      objects visited. */
  lemma {:induction false} CheckAllIds(nodes: seq<Node>, st: Checked)
    ensures CheckAll(nodes, st).inputIds == st.inputIds + FamilyIds(nodes, "Input.")
    ensures CheckAll(nodes, st).actionIds == st.actionIds + FamilyIds(nodes, "Action.")
  {
    if nodes != [] {
      CheckAllIds(nodes[..|nodes| - 1], st);
    }
  }

  /** The state the fold has reached when it comes to object `k`. */
  function Before(nodes: seq<Node>, k: nat, st: Checked): Checked
    requires k <= |nodes|
  {
    CheckAll(nodes[..k], st)
  }

  /** Some object's step pushed `x`, given the id sets it saw. */
  ghost predicate PushedAt(nodes: seq<Node>, st: Checked, x: ValidationIssue, k: nat)
    requires k < |nodes|
  {
    x in NodeIssues(nodes[k].fields, nodes[k].path, Before(nodes, k, st).inputIds, Before(nodes, k, st).actionIds)
  }

  /** Extending the objects does not change the state reached before an
      earlier one. */
  lemma BeforePrefix(nodes: seq<Node>, n: nat, k: nat, st: Checked)
    requires k <= n <= |nodes|
    ensures Before(nodes[..n], k, st) == Before(nodes, k, st)
  {
    assert nodes[..n][..k] == nodes[..k];
  }

  /** Every issue after the fold was there before, or was pushed at some
      object given the id sets at that point, and every such issue is
      reported. */
  lemma {:induction false} CheckAllIssues(nodes: seq<Node>, st: Checked, x: ValidationIssue)
    ensures x in CheckAll(nodes, st).issues
      <==> (x in st.issues || exists k :: 0 <= k < |nodes| && PushedAt(nodes, st, x, k))
  {
    if nodes != [] {
      var n := |nodes| - 1;
      var init := nodes[..n];
      var mid := CheckAll(init, st);
      CheckAllIssues(init, st, x);
      CheckNodeIssues(nodes[n].fields, nodes[n].path, mid);
      assert Before(nodes, n, st) == mid;
      var last := NodeIssues(nodes[n].fields, nodes[n].path, mid.inputIds, mid.actionIds);
      assert CheckAll(nodes, st).issues == mid.issues + last;
      assert PushedAt(nodes, st, x, n) <==> x in last;
      if x in mid.issues && x !in st.issues {
        var k :| 0 <= k < |init| && PushedAt(init, st, x, k);
        BeforePrefix(nodes, n, k, st);
        assert init[k] == nodes[k];
        assert PushedAt(nodes, st, x, k);
      }
      if x !in st.issues && exists k :: 0 <= k < |nodes| && PushedAt(nodes, st, x, k) {
        var k :| 0 <= k < |nodes| && PushedAt(nodes, st, x, k);
        if k < n {
          BeforePrefix(nodes, n, k, st);
          assert init[k] == nodes[k];
          assert PushedAt(init, st, x, k);
        }
      }
    }
  }

  /** The codes of the choice checks. */
  predicate IsChoiceCode(code: string)
  {
    code == "missing-choices" || code == "invalid-choices" || code == "empty-choices" || code == "invalid-choice"
  }

  /** The issues in `s` are all at `path`, none is `invalid-root`, a choice
      code or `duplicate-id`. */
  predicate Plain(s: seq<ValidationIssue>, path: string)
  {
    forall x :: x in s ==> x.path == path && x.code != "invalid-root" && !IsChoiceCode(x.code) && x.code != "duplicate-id"
  }

  lemma MissingIdPlain(fs: seq<Field>, path: string)
    ensures Plain(MissingId(fs, path), path)
  {
  }

  lemma ActionPartPlain(fs: seq<Field>, path: string)
    ensures Plain(ActionPart(fs, path), path)
  {
    var kind := Kind(fs);
    if kind == "Action.Execute" {
      ExecutePlain(fs, path);
    } else if kind == "Action.ShowCard" {
      ShowCardPlain(fs, path);
    } else {
      OtherActionPlain(fs, path);
    }
  }

  lemma ExecutePlain(fs: seq<Field>, path: string)
    requires Kind(fs) == "Action.Execute"
    ensures Plain(ActionIssues(fs, path), path)
  {
    var verb := if !(Get(fs, "verb").Some? && Get(fs, "verb").value.JStr?)
      then [Issue(path, "missing-verb", "Action.Execute should include a verb")] else [];
    var data := if Get(fs, "data").Some? && !Get(fs, "data").value.JObj? && !Get(fs, "data").value.JNull?
      then [Issue(path, "invalid-data", "Action.Execute data should be an object when present")] else [];
    assert ActionIssues(fs, path) == verb + data;
  }

  lemma ShowCardPlain(fs: seq<Field>, path: string)
    requires Kind(fs) == "Action.ShowCard"
    ensures Plain(ActionIssues(fs, path), path)
  {
    var card := if !HasKey(fs, "card") then [Issue(path, "missing-card", "Action.ShowCard must include a card")] else [];
    var shape := if Get(fs, "card").Some? && !Get(fs, "card").value.JObj?
      then [Issue(path, "invalid-card", "Action.ShowCard card must be an object")] else [];
    assert ActionIssues(fs, path) == card + shape;
  }

  lemma OtherActionPlain(fs: seq<Field>, path: string)
    requires Kind(fs) != "Action.Execute" && Kind(fs) != "Action.ShowCard"
    ensures Plain(ActionIssues(fs, path), path)
  {
  }

  lemma MediaPlain(fs: seq<Field>, path: string)
    ensures Plain(MediaIssues(fs, path), path)
  {
  }

  /** The element and input checks other than a choice set's. */
  lemma KindPlain(fs: seq<Field>, path: string)
    requires Kind(fs) != "Input.ChoiceSet"
    ensures Plain(KindIssues(fs, path), path)
  {
    var kind := Kind(fs);
    if kind == "Media" {
      MediaPlain(fs, path);
    }
  }

  /** The choice checks push choice codes at the object's path. */
  lemma ChoiceCodes(fs: seq<Field>, path: string)
    ensures forall x :: x in ChoiceIssues(fs, path) ==> x.path == path && IsChoiceCode(x.code)
  {
  }

  /** Where an issue of one object's step comes from: it is at the object's
      path and never `invalid-root`; a choice code comes only from a choice
      set's choice checks, and `duplicate-id` only from a repeated input id. */
  lemma NodeIssueOrigin(fs: seq<Field>, path: string, inputIds: set<string>, actionIds: set<string>, x: ValidationIssue)
    requires x in NodeIssues(fs, path, inputIds, actionIds)
    ensures x.path == path && x.code != "invalid-root"
    ensures IsChoiceCode(x.code) ==> Kind(fs) == "Input.ChoiceSet" && x in ChoiceIssues(fs, path)
    ensures x.code == "duplicate-id" ==> Repeats(fs, inputIds, "Input.") && x == Issue(path, "duplicate-id", InputDuplicate)
  {
    MissingIdPlain(fs, path);
    ActionPartPlain(fs, path);
    var inputDup := Duplicate(fs, path, inputIds, "Input.", "duplicate-id", InputDuplicate);
    var actionDup := Duplicate(fs, path, actionIds, "Action.", "duplicate-action-id", ActionDuplicate);
    assert Plain(actionDup, path);
    if Kind(fs) == "Input.ChoiceSet" {
      ChoiceCodes(fs, path);
    } else {
      KindPlain(fs, path);
    }
  }

  // ---------------------------------------------------------------------------
  // Properties of `validate_card`
  // ---------------------------------------------------------------------------

  /** The state the visit of an object card starts from. */
  function Start(fs: seq<Field>): Checked
  {
    Checked(RootIssues(fs), {}, {})
  }

  /** The objects of a card in visit order, the root first. */
  function CardNodes(card: Json): seq<Node>
  {
    Nodes(card, "")
  }

  /** The root checks push none of `invalid-root`, a choice code or
      `duplicate-id`. */
  lemma RootCodes(fs: seq<Field>, x: ValidationIssue)
    ensures x in RootIssues(fs) ==> x.code != "invalid-root" && !IsChoiceCode(x.code) && x.code != "duplicate-id"
  {
    var codes := {"invalid-type", "missing-version", "invalid-body", "invalid-actions"};
    assert forall y :: y in RootIssues(fs) ==> y.code in codes;
  }

  /** An issue of an object card is a root issue or was pushed at one of the
      card's objects, and every issue pushed at an object is reported. */
  lemma CardIssueOrigin(card: Json, x: ValidationIssue)
    requires card.JObj?
    ensures x in CardIssues(card)
      <==> (x in RootIssues(card.fields) || exists k :: 0 <= k < |CardNodes(card)| && PushedAt(CardNodes(card), Start(card.fields), x, k))
  {
    VisitedFlat(card, "", Start(card.fields));
    CheckAllIssues(CardNodes(card), Start(card.fields), x);
  }

  /** A card that is not an object yields exactly one issue, `invalid-root`
      at `/`; an object card never yields it. */
  lemma InvalidRoot(card: Json)
    ensures !card.JObj? ==> |CardIssues(card)| == 1 && CardIssues(card)[0].code == "invalid-root"
                            && CardIssues(card)[0].path == "/"
    ensures card.JObj? ==> forall x :: x in CardIssues(card) ==> x.code != "invalid-root"
  {
    if card.JObj? {
      forall x | x in CardIssues(card)
        ensures x.code != "invalid-root"
      {
        CardIssueOrigin(card, x);
        if x in RootIssues(card.fields) {
          RootCodes(card.fields, x);
        } else {
          var k :| 0 <= k < |CardNodes(card)| && PushedAt(CardNodes(card), Start(card.fields), x, k);
          var before := Before(CardNodes(card), k, Start(card.fields));
          NodeIssueOrigin(CardNodes(card)[k].fields, CardNodes(card)[k].path, before.inputIds, before.actionIds, x);
        }
      }
    }
  }

  /** A choice set without `choices` is reported at its path. */
  lemma MissingChoices(card: Json, k: nat)
    requires card.JObj? && k < |CardNodes(card)|
    requires Kind(CardNodes(card)[k].fields) == "Input.ChoiceSet" && !HasKey(CardNodes(card)[k].fields, "choices")
    ensures Issue(CardNodes(card)[k].path, "missing-choices", "Input.ChoiceSet must include choices") in CardIssues(card)
  {
    var node := CardNodes(card)[k];
    var x := Issue(node.path, "missing-choices", "Input.ChoiceSet must include choices");
    assert x in ChoiceIssues(node.fields, node.path);
    assert PushedAt(CardNodes(card), Start(card.fields), x, k);
    CardIssueOrigin(card, x);
  }

  /** `choices` is a non-empty array of choices with non-empty titles and
      values. */
  predicate GoodChoices(fs: seq<Field>)
  {
    match Get(fs, "choices")
    case Some(JArr(choices)) => choices != [] && forall i :: 0 <= i < |choices| ==> ValidChoice(choices[i])
    case _ => false
  }

  /** Good choices get none of the choice checks' issues. */
  lemma GoodChoicesPass(fs: seq<Field>, path: string)
    ensures GoodChoices(fs) <==> ChoiceIssues(fs, path) == []
  {
  }

  /** A choice code pushed at an object comes from a choice set whose
      choices are not good. */
  lemma ChoiceOrigin(fs: seq<Field>, path: string, inputIds: set<string>, actionIds: set<string>, x: ValidationIssue)
    requires x in NodeIssues(fs, path, inputIds, actionIds) && IsChoiceCode(x.code)
    ensures x.path == path && Kind(fs) == "Input.ChoiceSet" && !GoodChoices(fs)
  {
    NodeIssueOrigin(fs, path, inputIds, actionIds, x);
    GoodChoicesPass(fs, path);
  }

  /** A choice code is reported only at a choice set whose choices are not
      good: a choice set with a non-empty array of valid choices gets none of
      `missing-choices`, `invalid-choices`, `empty-choices` or
      `invalid-choice`. */
  lemma ChoiceIssueSource(card: Json, x: ValidationIssue)
    requires card.JObj? && x in CardIssues(card) && IsChoiceCode(x.code)
    ensures exists k :: 0 <= k < |CardNodes(card)| && CardNodes(card)[k].path == x.path
                        && Kind(CardNodes(card)[k].fields) == "Input.ChoiceSet" && !GoodChoices(CardNodes(card)[k].fields)
  {
    CardIssueOrigin(card, x);
    RootCodes(card.fields, x);
    var k :| 0 <= k < |CardNodes(card)| && PushedAt(CardNodes(card), Start(card.fields), x, k);
    var node := CardNodes(card)[k];
    var before := Before(CardNodes(card), k, Start(card.fields));
    ChoiceOrigin(node.fields, node.path, before.inputIds, before.actionIds, x);
  }

  /** Object `k` is an input whose string id an earlier input already
      carries. */
  ghost predicate RepeatedInput(nodes: seq<Node>, k: nat)
    requires k < |nodes|
  {
    StartsWith(Kind(nodes[k].fields), "Input.") && IdOf(nodes[k].fields).Some?
    && exists j :: 0 <= j < k && StartsWith(Kind(nodes[j].fields), "Input.") && IdOf(nodes[j].fields) == IdOf(nodes[k].fields)
  }

  /** The input ids seen before object `k` are those of the earlier inputs. */
  lemma SeenInputs(nodes: seq<Node>, k: nat, st: Checked)
    requires k < |nodes| && st.inputIds == {}
    ensures Repeats(nodes[k].fields, Before(nodes, k, st).inputIds, "Input.") <==> RepeatedInput(nodes, k)
  {
    CheckAllIds(nodes[..k], st);
    var fs := nodes[k].fields;
    if IdOf(fs).Some? {
      FamilyIdsSpec(nodes[..k], "Input.", IdOf(fs).value);
      forall j | 0 <= j < k
        ensures nodes[..k][j] == nodes[j]
      {
      }
    }
  }

  /** `duplicate-id` is reported exactly at the inputs whose string id an
      earlier input of the card already carries. */
  lemma DuplicateInputId(card: Json, x: ValidationIssue)
    requires card.JObj?
    ensures (x in CardIssues(card) && x.code == "duplicate-id")
      <==> exists k :: 0 <= k < |CardNodes(card)| && RepeatedInput(CardNodes(card), k)
                       && x == Issue(CardNodes(card)[k].path, "duplicate-id", InputDuplicate)
  {
    var nodes := CardNodes(card);
    var st := Start(card.fields);
    CardIssueOrigin(card, x);
    if x in CardIssues(card) && x.code == "duplicate-id" {
      RootCodes(card.fields, x);
      var k :| 0 <= k < |nodes| && PushedAt(nodes, st, x, k);
      var before := Before(nodes, k, st);
      NodeIssueOrigin(nodes[k].fields, nodes[k].path, before.inputIds, before.actionIds, x);
      SeenInputs(nodes, k, st);
    }
    if exists k :: 0 <= k < |nodes| && RepeatedInput(nodes, k) && x == Issue(nodes[k].path, "duplicate-id", InputDuplicate) {
      var k :| 0 <= k < |nodes| && RepeatedInput(nodes, k) && x == Issue(nodes[k].path, "duplicate-id", InputDuplicate);
      SeenInputs(nodes, k, st);
      var before := Before(nodes, k, st);
      assert x in Duplicate(nodes[k].fields, nodes[k].path, before.inputIds, "Input.", "duplicate-id", InputDuplicate);
      assert PushedAt(nodes, st, x, k);
    }
  }
}
