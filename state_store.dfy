/** The card state document and its store (src/state_store.rs).

    A state update addresses a value by a dotted path. `set_path` and
    `merge_path` walk the path, turning every non-object they meet into an
    empty object and creating missing keys; `delete_path` walks only through
    existing objects and gives up otherwise. The Rust code walks a mutable
    cursor down the document; the methods below do the same with an explicit
    stack of the objects passed through (`Frame`s), and are proved equal to
    the recursive definitions `Write` and `Erase`. */
module StateStore {
  import opened Wrappers
  import opened Text
  import opened JsonValue
  import opened Model

  // ---------------------------------------------------------------------------
  // Specification of the path operations
  // ---------------------------------------------------------------------------

  /** What the final path segment receives: a plain assignment (`set_path`)
      or a shallow merge (`merge_path`). */
  datatype Leaf = Assign(value: Json) | Combine(value: Json)

  /** The fields of `existing` with each field of `update` inserted in turn. */
  function MergeFields(existing: seq<Field>, update: seq<Field>): seq<Field>
    decreases |update|
  {
    if |update| == 0 then existing
    else MergeFields(Put(existing, update[0].key, update[0].val), update[1..])
  }

  /** The value the final segment ends up with, given the value it had. */
  function Settled(existing: Option<Json>, leaf: Leaf): Json
  {
    match leaf
    case Assign(v) => v
    case Combine(v) =>
      if existing.Some? && existing.value.JObj? && v.JObj?
      then JObj(MergeFields(existing.value.fields, v.fields))
      else v
  }

  /** The document after writing `leaf` at `parts`. */
  function Write(v: Json, parts: seq<string>, leaf: Leaf): (r: Json)
    requires |parts| >= 1
    ensures r.JObj?
    decreases |parts|
  {
    var fs := EnsureObject(v);
    if |parts| == 1 then JObj(Put(fs, parts[0], Settled(Get(fs, parts[0]), leaf)))
    else
      var child := Get(fs, parts[0]).GetOr(JObj([]));
      JObj(Put(fs, parts[0], Write(child, parts[1..], leaf)))
  }

  /** The value at `parts` as `Write` finds it: non-objects on the way count
      as empty objects. */
  function ExistingAt(v: Json, parts: seq<string>): Option<Json>
    requires |parts| >= 1
    decreases |parts|
  {
    var fs := EnsureObject(v);
    if |parts| == 1 then Get(fs, parts[0])
    else ExistingAt(Get(fs, parts[0]).GetOr(JObj([])), parts[1..])
  }

  /** The document after removing the key at `parts`; it is unchanged when a
      segment before the last does not lead through an existing object. */
  function Erase(v: Json, parts: seq<string>): Json
    requires |parts| >= 1
    decreases |parts|
  {
    match v
    case JObj(fs) =>
      if |parts| == 1 then JObj(Remove(fs, parts[0]))
      else
        (match Get(fs, parts[0])
         case Some(child) => JObj(Put(fs, parts[0], Erase(child, parts[1..])))
         case None => v)
    case _ => v
  }

  /** The path leads through existing objects only and ends at an existing key. */
  predicate Present(v: Json, parts: seq<string>)
    requires |parts| >= 1
    decreases |parts|
  {
    v.JObj? && Get(v.fields, parts[0]).Some?
    && (|parts| > 1 ==> Present(Get(v.fields, parts[0]).value, parts[1..]))
  }

  /** Every segment of `parts` steps from an existing object to a value. */
  predicate ObjectsAlong(v: Json, parts: seq<string>)
    decreases |parts|
  {
    v.JObj? && (|parts| > 0 ==> Get(v.fields, parts[0]).Some? && ObjectsAlong(Get(v.fields, parts[0]).value, parts[1..]))
  }

  // ---------------------------------------------------------------------------
  // Properties of the path operations
  // ---------------------------------------------------------------------------

  /** Merging inserts every key of the update and keeps every other key. */
  lemma {:induction false} MergeFieldsUnion(existing: seq<Field>, update: seq<Field>, k: string)
    requires UniqueKeys(update)
    ensures Get(MergeFields(existing, update), k) == (if HasKey(update, k) then Get(update, k) else Get(existing, k))
    decreases |update|
  {
    if |update| > 0 {
      assert UniqueKeys(update[1..]);
      MergeFieldsUnion(Put(existing, update[0].key, update[0].val), update[1..], k);
      if k == update[0].key {
        UniqueTailLacksHead(update);
      }
    }
  }

  lemma UniqueTailLacksHead(fs: seq<Field>)
    requires |fs| > 0 && UniqueKeys(fs)
    ensures !HasKey(fs[1..], fs[0].key)
  {
    forall j | 0 <= j < |fs[1..]|
      ensures fs[1..][j].key != fs[0].key
    {
      assert fs[1..][j] == fs[j + 1];
    }
    GetAbsent(fs[1..], fs[0].key);
  }

  /** `set_path` then a lookup of the same path gives the value written;
      `merge_path` gives the shallow merge of what was there. Both hold
      for `Walk` (the binding lookup) and for `ExistingAt`. */
  lemma {:induction false} WriteThenRead(v: Json, parts: seq<string>, leaf: Leaf)
    requires |parts| >= 1
    ensures Walk(Write(v, parts, leaf), parts) == Some(Settled(ExistingAt(v, parts), leaf))
    ensures ExistingAt(Write(v, parts, leaf), parts) == Some(Settled(ExistingAt(v, parts), leaf))
    decreases |parts|
  {
    if |parts| > 1 {
      var fs := EnsureObject(v);
      WriteThenRead(Get(fs, parts[0]).GetOr(JObj([])), parts[1..], leaf);
    }
  }

  /** After `set_path`, the path holds exactly the value set. */
  lemma SetThenWalk(v: Json, parts: seq<string>, x: Json)
    requires |parts| >= 1
    ensures Walk(Write(v, parts, Assign(x)), parts) == Some(x)
  {
    WriteThenRead(v, parts, Assign(x));
  }

  /** A non-object state (null, a scalar, an array) is first replaced by an
      empty object, at the root and at every intermediate segment. */
  lemma {:induction false} WriteCoerces(v: Json, parts: seq<string>, leaf: Leaf)
    requires |parts| >= 1 && !v.JObj?
    ensures Write(v, parts, leaf) == Write(JObj([]), parts, leaf)
    ensures |parts| > 1 ==> Write(v, parts, leaf) == JObj([Field(parts[0], Write(JObj([]), parts[1..], leaf))])
  {
    assert EnsureObject(v) == [];
  }

  /** Writing changes nothing but the addressed path: at every object the
      path passes through, every other key keeps its value. */
  lemma {:induction false} WriteKeepsSiblings(v: Json, parts: seq<string>, leaf: Leaf, j: nat, k: string)
    requires j < |parts| && k != parts[j]
    requires ObjectsAlong(v, parts[..j])
    ensures Walk(Write(v, parts, leaf), parts[..j] + [k]) == Walk(v, parts[..j] + [k])
    decreases j
  {
    var fs := v.fields;
    if j == 0 {
      assert parts[..0] + [k] == [k];
      if |parts| == 1 {
      } else {
      }
    } else {
      var child := Get(fs, parts[0]).value;
      assert parts[1..][..j - 1] == parts[..j][1..];
      WriteKeepsSiblings(child, parts[1..], leaf, j - 1, k);
      var q := parts[..j] + [k];
      assert q[0] == parts[0] && q[1..] == parts[1..][..j - 1] + [k];
    }
  }

  /** Merging `{a: 1}` and then `{b: 2}` at the same path leaves an object
      with both keys there, whatever the document held before. */
  lemma MergeTwice(v: Json, parts: seq<string>, x: Json, y: Json)
    requires |parts| >= 1
    ensures var u1 := [Field("a", x)];
            var u2 := [Field("b", y)];
            var w := Write(Write(v, parts, Combine(JObj(u1))), parts, Combine(JObj(u2)));
            Walk(w, parts).Some? && Walk(w, parts).value.JObj?
            && Get(Walk(w, parts).value.fields, "a") == Some(x)
            && Get(Walk(w, parts).value.fields, "b") == Some(y)
  {
    var u1 := [Field("a", x)];
    var u2 := [Field("b", y)];
    var w1 := Write(v, parts, Combine(JObj(u1)));
    WriteThenRead(v, parts, Combine(JObj(u1)));
    WriteThenRead(w1, parts, Combine(JObj(u2)));
    var m := Settled(ExistingAt(v, parts), Combine(JObj(u1)));
    assert m.JObj?;
    MergeFieldsUnion(m.fields, u2, "a");
    MergeFieldsUnion(m.fields, u2, "b");
    var e := ExistingAt(v, parts);
    if e.Some? && e.value.JObj? {
      MergeFieldsUnion(e.value.fields, u1, "a");
    }
  }

  /** Deleting a path that is not there changes nothing. */
  lemma {:induction false} EraseAbsent(v: Json, parts: seq<string>)
    requires |parts| >= 1 && !Present(v, parts)
    ensures Erase(v, parts) == v
    decreases |parts|
  {
    if v.JObj? && |parts| > 1 && Get(v.fields, parts[0]).Some? {
      EraseAbsent(Get(v.fields, parts[0]).value, parts[1..]);
      PutSame(v.fields, parts[0], Get(v.fields, parts[0]).value);
    }
  }

  /** After a delete the path is gone. */
  lemma {:induction false} EraseThenWalk(v: Json, parts: seq<string>)
    requires |parts| >= 1
    ensures Walk(Erase(v, parts), parts).None? || (!Present(v, parts) && Erase(v, parts) == v)
    decreases |parts|
  {
    if !Present(v, parts) {
      EraseAbsent(v, parts);
    } else if |parts| > 1 {
      EraseThenWalk(Get(v.fields, parts[0]).value, parts[1..]);
    }
  }

  /** Deleting twice is deleting once. */
  lemma {:induction false} EraseIdempotent(v: Json, parts: seq<string>)
    requires |parts| >= 1
    ensures Erase(Erase(v, parts), parts) == Erase(v, parts)
    decreases |parts|
  {
    if v.JObj? && |parts| > 1 && Get(v.fields, parts[0]).Some? {
      var child := Get(v.fields, parts[0]).value;
      EraseIdempotent(child, parts[1..]);
      PutPut(v.fields, parts[0], Erase(child, parts[1..]), Erase(Erase(child, parts[1..]), parts[1..]));
    }
  }

  /** Deleting leaves every other key of the objects on the path alone. */
  lemma {:induction false} EraseKeepsSiblings(v: Json, parts: seq<string>, j: nat, k: string)
    requires j < |parts| && k != parts[j]
    ensures Walk(Erase(v, parts), parts[..j] + [k]) == Walk(v, parts[..j] + [k])
    decreases j
  {
    if !Present(v, parts) {
      EraseAbsent(v, parts);
    } else if j == 0 {
      assert parts[..0] + [k] == [k];
    } else {
      var child := Get(v.fields, parts[0]).value;
      assert parts[1..][..j - 1] == parts[..j][1..];
      EraseKeepsSiblings(child, parts[1..], j - 1, k);
      var q := parts[..j] + [k];
      assert q[0] == parts[0] && q[1..] == parts[1..][..j - 1] + [k];
    }
  }

  // ---------------------------------------------------------------------------
  // The cursor walk
  // ---------------------------------------------------------------------------

  /** An object passed through on the way down, and the key taken out of it. */
  datatype Frame = Frame(fields: seq<Field>, key: string)

  /** The document rebuilt by putting `w` back under each frame, innermost first. */
  function Plug(frames: seq<Frame>, w: Json): Json
    decreases |frames|
  {
    if |frames| == 0 then w
    else
      var f := frames[|frames| - 1];
      Plug(frames[..|frames| - 1], JObj(Put(f.fields, f.key, w)))
  }

  lemma PlugPush(frames: seq<Frame>, f: Frame, w: Json)
    ensures Plug(frames + [f], w) == Plug(frames, JObj(Put(f.fields, f.key, w)))
  {
    assert (frames + [f])[..|frames|] == frames;
  }

  /** Rebuilds the document from the innermost value outwards. */
  method Ascend(frames: seq<Frame>, inner: Json) returns (r: Json)
    ensures r == Plug(frames, inner)
  {
    r := inner;
    var j := |frames|;
    assert frames[..j] == frames;
    while j > 0
      invariant 0 <= j <= |frames|
      invariant Plug(frames[..j], r) == Plug(frames, inner)
    {
      assert frames[..j][..j - 1] == frames[..j - 1];
      j := j - 1;
      r := JObj(Put(frames[j].fields, frames[j].key, r));
    }
  }

  /** One step down: the write below `current` puts the write below the
      chosen child back under the key, in the object the step prepared. */
  lemma DescendWrite(current: Json, parts: seq<string>, i: nat, leaf: Leaf, fs: seq<Field>, next: Json)
    requires i + 1 < |parts|
    requires fs == (if HasKey(EnsureObject(current), parts[i]) then EnsureObject(current)
                    else Put(EnsureObject(current), parts[i], JObj([])))
    requires Get(fs, parts[i]) == Some(next)
    ensures Write(current, parts[i..], leaf) == JObj(Put(fs, parts[i], Write(next, parts[i + 1..], leaf)))
  {
    assert parts[i..][0] == parts[i] && parts[i..][1..] == parts[i + 1..];
    if !HasKey(EnsureObject(current), parts[i]) {
      PutPut(EnsureObject(current), parts[i], JObj([]), Write(next, parts[i + 1..], leaf));
    }
  }

  /** The last step: the final key takes the settled value. */
  lemma LastWrite(current: Json, parts: seq<string>, i: nat, leaf: Leaf)
    requires i + 1 == |parts|
    ensures Write(current, parts[i..], leaf)
      == JObj(Put(EnsureObject(current), parts[i], Settled(Get(EnsureObject(current), parts[i]), leaf)))
  {
    assert parts[i..] == [parts[i]];
  }

  /** The shared walk of `set_path` and `merge_path`. */
  method WritePath(state: Json, parts: seq<string>, leaf: Leaf) returns (r: Json)
    requires |parts| >= 1
    ensures r == Write(state, parts, leaf)
  {
    var frames: seq<Frame> := [];
    var current := state;
    var i := 0;
    while i < |parts| - 1
      invariant 0 <= i <= |parts| - 1
      invariant Plug(frames, Write(current, parts[i..], leaf)) == Write(state, parts, leaf)
    {
      var fs := EnsureObject(current);
      if !HasKey(fs, parts[i]) {
        fs := Put(fs, parts[i], JObj([]));
      }
      var next := Get(fs, parts[i]).value;
      DescendWrite(current, parts, i, leaf, fs, next);
      PlugPush(frames, Frame(fs, parts[i]), Write(next, parts[i + 1..], leaf));
      frames := frames + [Frame(fs, parts[i])];
      current := next;
      i := i + 1;
    }
    var fs := EnsureObject(current);
    var key := parts[i];
    var inner := JObj(Put(fs, key, Settled(Get(fs, key), leaf)));
    LastWrite(current, parts, i, leaf);
    r := Ascend(frames, inner);
  }

  /** `set_path`: the path's value becomes `value`. */
  method SetPath(state: Json, path: string, value: Json) returns (r: Json)
    ensures r == Write(state, Split(path, '.'), Assign(value))
  {
    r := WritePath(state, Split(path, '.'), Assign(value));
  }

  /** `merge_path`: two objects are merged shallowly, anything else is set. */
  method MergePath(state: Json, path: string, value: Json) returns (r: Json)
    ensures r == Write(state, Split(path, '.'), Combine(value))
  {
    r := WritePath(state, Split(path, '.'), Combine(value));
  }

  /** `delete_path`: stops at the first missing key or non-object. */
  method DeletePath(state: Json, path: string) returns (r: Json)
    ensures r == Erase(state, Split(path, '.'))
  {
    var parts := Split(path, '.');
    var frames: seq<Frame> := [];
    var current := state;
    var i := 0;
    while i < |parts| - 1
      invariant 0 <= i <= |parts| - 1
      invariant Plug(frames, current) == state
      invariant Plug(frames, Erase(current, parts[i..])) == Erase(state, parts)
    {
      assert parts[i..][1..] == parts[i + 1..];
      if !current.JObj? {
        return state;
      }
      var fs := current.fields;
      match Get(fs, parts[i]) {
        case None =>
          return state;
        case Some(child) =>
          PutSame(fs, parts[i], child);
          PlugPush(frames, Frame(fs, parts[i]), child);
          PlugPush(frames, Frame(fs, parts[i]), Erase(child, parts[i + 1..]));
          frames := frames + [Frame(fs, parts[i])];
          current := child;
      }
      i := i + 1;
    }
    assert parts[i..] == [parts[i]];
    if !current.JObj? {
      return state;
    }
    r := Ascend(frames, JObj(Remove(current.fields, parts[i])));
  }

  // ---------------------------------------------------------------------------
  // A list of updates
  // ---------------------------------------------------------------------------

  /** The effect of one update on the document. */
  function Step(state: Json, op: StateUpdateOp): Json
  {
    match op
    case Set(path, value) => Write(state, Split(path, '.'), Assign(value))
    case Merge(path, value) => Write(state, Split(path, '.'), Combine(value))
    case Delete(path) => Erase(state, Split(path, '.'))
  }

  /** The document after the updates, first to last. */
  function Applied(state: Json, ops: seq<StateUpdateOp>): Json
    decreases |ops|
  {
    if |ops| == 0 then state else Applied(Step(state, ops[0]), ops[1..])
  }

  /** Updates apply in list order: one more update acts on the result of the others. */
  lemma {:induction false} AppliedSnoc(state: Json, ops: seq<StateUpdateOp>, op: StateUpdateOp)
    ensures Applied(state, ops + [op]) == Step(Applied(state, ops), op)
    decreases |ops|
  {
    if |ops| > 0 {
      assert (ops + [op])[1..] == ops[1..] + [op];
      AppliedSnoc(Step(state, ops[0]), ops[1..], op);
    }
  }

  /** `apply_updates`. */
  method ApplyUpdates(state: Json, updates: seq<StateUpdateOp>) returns (r: Json)
    ensures r == Applied(state, updates)
  {
    r := state;
    var i := 0;
    while i < |updates|
      invariant 0 <= i <= |updates|
      invariant Applied(r, updates[i..]) == Applied(state, updates)
    {
      assert updates[i..][1..] == updates[i + 1..];
      match updates[i] {
        case Set(path, value) => r := SetPath(r, path, value);
        case Merge(path, value) => r := MergePath(r, path, value);
        case Delete(path) => r := DeletePath(r, path);
      }
      i := i + 1;
    }
  }

  /** Set `p.n`, then merge `{t: y}` into `p`, then delete `p.n`: `t` holds
      `y` and `n` is gone, from any document. */
  lemma {:induction false} SetMergeDelete(state: Json, p: string, n: string, t: string, x: Json, y: Json)
    requires n != t
    ensures var s1 := Write(state, [p, n], Assign(x));
            var s2 := Write(s1, [p], Combine(JObj([Field(t, y)])));
            var s3 := Erase(s2, [p, n]);
            Walk(s3, [p, t]) == Some(y) && Walk(s3, [p, n]).None?
  {
    var update := [Field(t, y)];
    var s1 := Write(state, [p, n], Assign(x));
    var s2 := Write(s1, [p], Combine(JObj(update)));
    // After the set, p holds an object.
    var fd1 := Get(s1.fields, p).value;
    assert fd1.JObj?;
    // After the merge, p holds that object with t added.
    var fd := JObj(MergeFields(fd1.fields, update));
    assert Get(s2.fields, p) == Some(fd);
    MergeFieldsUnion(fd1.fields, update, t);
    assert Get(fd.fields, t) == Some(y);
    assert [p, t][1..] == [t] && [t][1..] == [];
    assert Walk(fd, [t]) == Some(y);
    assert Walk(s2, [p, t]) == Some(y);
    EraseThenWalk(s2, [p, n]);
    EraseKeepsSiblings(s2, [p, n], 1, t);
    assert [p, n][..1] + [t] == [p, t];
  }

  /** The same three updates as dotted paths applied in order. With
      p = "form_data", n = "name", t = "tier" this is the store's own example. */
  lemma SetMergeDeleteSequence(state: Json, p: string, n: string, t: string, x: Json, y: Json)
    requires '.' !in p && '.' !in n && n != t
    ensures var ops := [Set(p + "." + n, x), Merge(p, JObj([Field(t, y)])), Delete(p + "." + n)];
            var r := Applied(state, ops);
            Walk(r, [p, t]) == Some(y) && Walk(r, [p, n]).None?
  {
    var ops := [Set(p + "." + n, x), Merge(p, JObj([Field(t, y)])), Delete(p + "." + n)];
    assert Split(p + "." + n, '.') == [p, n] by {
      SplitAfterPiece(p, '.', n);
      SplitNoSeparator(n, '.');
    }
    assert Split(p, '.') == [p] by {
      SplitNoSeparator(p, '.');
    }
    var s1 := Step(state, ops[0]);
    var s2 := Step(s1, ops[1]);
    var s3 := Step(s2, ops[2]);
    assert ops[1..] == ops[1..3] && ops[1..][1..] == [ops[2]] && [ops[2]][1..] == [];
    assert Applied(s2, [ops[2]]) == s3;
    assert Applied(s1, ops[1..]) == s3;
    assert Applied(state, ops) == s3;
    SetMergeDelete(state, p, n, t, x, y);
  }

  // ---------------------------------------------------------------------------
  // Keys and the store
  // ---------------------------------------------------------------------------

  /** The storage key of a card's state: the node's when there is one, else
      the interacting card instance's, else a shared default. */
  function StateKey(inv: Invocation, interaction: Option<Interaction>): (key: string)
    ensures inv.nodeId.Some? ==> key == "adaptive-card:node:" + inv.nodeId.value
    ensures inv.nodeId.None? && interaction.Some? ==> key == "adaptive-card:card:" + interaction.value.cardInstanceId
    ensures inv.nodeId.None? && interaction.None? ==> key == "adaptive-card:default"
  {
    match inv.nodeId
    case Some(node) => "adaptive-card:node:" + node
    case None =>
      match interaction
      case Some(i) => "adaptive-card:card:" + i.cardInstanceId
      case None => "adaptive-card:default"
  }

  /** Different nodes, different card instances, and the default never share
      a key; a node key never collides with a card key or the default. */
  lemma StateKeyInjective(a: Invocation, ai: Option<Interaction>, b: Invocation, bi: Option<Interaction>)
    requires StateKey(a, ai) == StateKey(b, bi)
    ensures a.nodeId == b.nodeId
    ensures a.nodeId.None? ==> ai.None? == bi.None?
    ensures a.nodeId.None? && ai.Some? ==> ai.value.cardInstanceId == bi.value.cardInstanceId
  {
    var ka := StateKey(a, ai);
    var kb := StateKey(b, bi);
    // The fifteenth character tells the three forms apart.
    if a.nodeId.Some? { assert ka[14] == 'n'; } else if ai.Some? { assert ka[14] == 'c'; } else { assert ka[14] == 'd'; }
    if b.nodeId.Some? { assert kb[14] == 'n'; } else if bi.Some? { assert kb[14] == 'c'; } else { assert kb[14] == 'd'; }
    if a.nodeId.Some? && b.nodeId.Some? {
      assert ka[19..] == a.nodeId.value;
      assert kb[19..] == b.nodeId.value;
    } else if a.nodeId.None? && b.nodeId.None? && ai.Some? && bi.Some? {
      assert ka[19..] == ai.value.cardInstanceId;
      assert kb[19..] == bi.value.cardInstanceId;
    }
  }

  /** The key-value backend: the state documents stored by key. */
  class Store {
    var entries: map<string, Json>

    constructor()
      ensures entries == map[]
    {
      entries := map[];
    }

    /** `load_state_if_missing`: a state already in the invocation is kept;
        a null state is replaced by the stored one, if any. Returns the
        invocation as updated and what was read. */
    method LoadStateIfMissing(inv: Invocation, interaction: Option<Interaction>) returns (updated: Invocation, loaded: Option<Json>)
      ensures inv.state != JNull ==> updated == inv && loaded == None
      ensures inv.state == JNull ==>
        var key := StateKey(inv, interaction);
        loaded == (if key in entries then Some(entries[key]) else None)
        && updated == inv.(state := loaded.GetOr(JNull))
    {
      if inv.state != JNull {
        return inv, None;
      }
      var key := StateKey(inv, interaction);
      loaded := if key in entries then Some(entries[key]) else None;
      updated := inv;
      if loaded.Some? {
        updated := inv.(state := loaded.value);
      }
    }

    /** `persist_state`: a null document removes the key; any other is stored. */
    method PersistState(inv: Invocation, interaction: Option<Interaction>, state: Json)
      modifies this
      ensures var key := StateKey(inv, interaction);
        entries == if state == JNull then old(entries) - {key} else old(entries)[key := state]
    {
      var key := StateKey(inv, interaction);
      if state == JNull {
        entries := entries - {key};
      } else {
        entries := entries[key := state];
      }
    }
  }

  /** Persisting a document and then loading into an invocation without a
      state gives that document back (the store's own test). */
  method PersistThenLoad(store: Store, inv: Invocation, interaction: Option<Interaction>, state: Json)
    returns (updated: Invocation, loaded: Option<Json>)
    requires inv.state == JNull && state != JNull
    modifies store
    ensures loaded == Some(state) && updated == inv.(state := state)
  {
    store.PersistState(inv, interaction, state);
    updated, loaded := store.LoadStateIfMissing(inv, interaction);
  }

  /** Persisting null and then loading finds nothing. */
  method PersistNullThenLoad(store: Store, inv: Invocation, interaction: Option<Interaction>)
    returns (updated: Invocation, loaded: Option<Json>)
    requires inv.state == JNull
    modifies store
    ensures loaded == None && updated == inv
  {
    store.PersistState(inv, interaction, JNull);
    updated, loaded := store.LoadStateIfMissing(inv, interaction);
  }
}
