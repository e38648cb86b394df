/** The data handed to the template renderer (`build_handlebars_context` in
    src/render.rs): payload and state, the addressed state node when there is
    one, and the fields of `state.input` under every name not already taken. */
module Template {
  import opened Wrappers
  import opened JsonValue
  import opened Model

  /** `is_reserved_handlebars_key`: the names the builder sets itself. */
  predicate IsReservedKey(key: string)
  {
    key == "payload" || key == "state" || key == "node" || key == "node_id" || key == "node_payload"
  }

  /** `resolve_state_node`: `state.nodes.<node_id>`, when both are objects. */
  function StateNode(state: Json, nodeId: string): (r: Option<seq<Field>>)
    ensures r.Some? <==> Member(state, "nodes").Some? && Member(Member(state, "nodes").value, nodeId).Some?
                         && Member(Member(state, "nodes").value, nodeId).value.JObj?
  {
    match Member(state, "nodes")
    case Some(nodes) =>
      (match Member(nodes, nodeId)
       case Some(JObj(node)) => Some(node)
       case _ => None)
    case None => None
  }

  /** `resolve_state_input`: `state.input`, when it is an object. */
  function StateInput(state: Json): Option<seq<Field>>
  {
    match Member(state, "input")
    case Some(JObj(input)) => Some(input)
    case _ => None
  }

  /** The context before `state.input` is merged in: `payload`, `state`, and
      for a node id `node_id`, then `node_payload` and `node` when the state
      holds that node. */
  function BaseContext(inv: Invocation): seq<Field>
  {
    var root := Put(Put([], "payload", inv.payload), "state", inv.state);
    match inv.nodeId
    case None => root
    case Some(id) =>
      var withId := Put(root, "node_id", JStr(id));
      match StateNode(inv.state, id)
      case None => withId
      case Some(node) =>
        var withPayload := match Get(node, "payload")
          case Some(p) => Put(withId, "node_payload", p)
          case None => withId;
        Put(withPayload, "node", JObj(node))
  }

  /** The input fields from `i` on merged into `root`, in order: a reserved
      name or a name already present is skipped. */
  function MergedInput(root: seq<Field>, input: seq<Field>, i: nat): seq<Field>
    requires i <= |input|
    decreases |input| - i
  {
    if i == |input| then root
    else
      var f := input[i];
      var next := if IsReservedKey(f.key) || HasKey(root, f.key) then root else Put(root, f.key, f.val);
      MergedInput(next, input, i + 1)
  }

  /** The context `build_handlebars_context` builds. */
  function HandlebarsContext(inv: Invocation): Json
  {
    var base := BaseContext(inv);
    match StateInput(inv.state)
    case Some(input) => JObj(MergedInput(base, input, 0))
    case None => JObj(base)
  }

  /** `build_handlebars_context`. */
  method BuildHandlebarsContext(inv: Invocation) returns (context: Json)
    ensures context == HandlebarsContext(inv)
  {
    var root: seq<Field> := [];
    root := Put(root, "payload", inv.payload);
    root := Put(root, "state", inv.state);
    if inv.nodeId.Some? {
      var id := inv.nodeId.value;
      root := Put(root, "node_id", JStr(id));
      var node := StateNode(inv.state, id);
      if node.Some? {
        var payload := Get(node.value, "payload");
        if payload.Some? {
          root := Put(root, "node_payload", payload.value);
        }
        root := Put(root, "node", JObj(node.value));
      }
    }
    var stateInput := StateInput(inv.state);
    if stateInput.Some? {
      var input := stateInput.value;
      var i := 0;
      while i < |input|
        invariant 0 <= i <= |input|
        invariant MergedInput(root, input, i) == MergedInput(BaseContext(inv), input, 0)
      {
        var f := input[i];
        if !(IsReservedKey(f.key) || HasKey(root, f.key)) {
          root := Put(root, f.key, f.val);
        }
        i := i + 1;
      }
    }
    context := JObj(root);
  }

  /** Merging never touches a reserved name, and any other name ends up with
      the value it had, or else the first value the input gives it. */
  lemma {:induction false} MergedGet(root: seq<Field>, input: seq<Field>, i: nat, k: string)
    requires i <= |input|
    ensures IsReservedKey(k) ==> Get(MergedInput(root, input, i), k) == Get(root, k)
    ensures !IsReservedKey(k) ==>
      (Get(MergedInput(root, input, i), k) == if HasKey(root, k) then Get(root, k) else Get(input[i..], k))
    decreases |input| - i
  {
    if i < |input| {
      var f := input[i];
      var next := if IsReservedKey(f.key) || HasKey(root, f.key) then root else Put(root, f.key, f.val);
      MergedGet(next, input, i + 1, k);
      assert input[i..][0] == f && input[i..][1..] == input[i + 1..];
    }
  }

  /** The base context holds reserved names only. */
  lemma BaseOnlyReserved(inv: Invocation, k: string)
    requires !IsReservedKey(k)
    ensures Get(BaseContext(inv), k).None?
  {
  }

  /** The reserved names carry the invocation's payload and state, the node
      id, and the node, whatever `state.input` holds. */
  lemma ContextReserved(inv: Invocation)
    ensures Member(HandlebarsContext(inv), "payload") == Some(inv.payload)
    ensures Member(HandlebarsContext(inv), "state") == Some(inv.state)
    ensures Member(HandlebarsContext(inv), "node_id") == NodeIdValue(inv)
    ensures Member(HandlebarsContext(inv), "node") == NodeValue(inv)
  {
    BaseReserved(inv);
    var input := StateInput(inv.state);
    if input.Some? {
      MergedGet(BaseContext(inv), input.value, 0, "payload");
      MergedGet(BaseContext(inv), input.value, 0, "state");
      MergedGet(BaseContext(inv), input.value, 0, "node_id");
      MergedGet(BaseContext(inv), input.value, 0, "node");
    }
  }

  /** The node id as a string, when there is one. */
  function NodeIdValue(inv: Invocation): Option<Json>
  {
    match inv.nodeId
    case Some(id) => Some(JStr(id))
    case None => None
  }

  /** The addressed node as an object, when there is a node id and the state
      holds an object under it. */
  function NodeValue(inv: Invocation): Option<Json>
  {
    match inv.nodeId
    case None => None
    case Some(id) =>
      match StateNode(inv.state, id)
      case Some(node) => Some(JObj(node))
      case None => None
  }

  /** The base context already holds the reserved entries. */
  lemma BaseReserved(inv: Invocation)
    ensures Get(BaseContext(inv), "payload") == Some(inv.payload)
    ensures Get(BaseContext(inv), "state") == Some(inv.state)
    ensures Get(BaseContext(inv), "node_id") == NodeIdValue(inv)
    ensures Get(BaseContext(inv), "node") == NodeValue(inv)
  {
    var root := Put(Put([], "payload", inv.payload), "state", inv.state);
    assert Get(root, "payload") == Some(inv.payload) && Get(root, "node").None? && Get(root, "node_id").None?;
  }

  /** Any other name is taken from `state.input` (its first field of that
      name), and is absent when the state has no input object. */
  lemma ContextInput(inv: Invocation, k: string)
    requires !IsReservedKey(k)
    ensures Member(HandlebarsContext(inv), k)
      == (match StateInput(inv.state) case Some(input) => Get(input, k) case None => None)
  {
    BaseOnlyReserved(inv, k);
    var input := StateInput(inv.state);
    if input.Some? {
      MergedGet(BaseContext(inv), input.value, 0, k);
      assert input.value[0..] == input.value;
    }
  }
}
