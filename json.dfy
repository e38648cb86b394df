/** JSON values as the engine sees them (`serde_json::Value`).
    An object is an association list; `Put` and `Remove` behave as map insert
    and remove, so lookups see exactly what a map would. */
module JsonValue {
  import opened Wrappers
  import opened Text

  datatype Json =
    | JNull
    | JBool(b: bool)
    | JNum(n: int)
    | JStr(s: string)
    | JArr(items: seq<Json>)
    | JObj(fields: seq<Field>)

  datatype Field = Field(key: string, val: Json)

  /** Conversion between JSON text and values (`serde_json::from_str` and
      `Value::to_string`); the engine treats both as given. */
  datatype Codec = Codec(parse: string -> Option<Json>, show: Json -> string)

  /** Object keys are unique, as in every value serde builds. */
  predicate UniqueKeys(fs: seq<Field>)
  {
    forall i, j :: 0 <= i < j < |fs| ==> fs[i].key != fs[j].key
  }

  function Keys(fs: seq<Field>): (ks: seq<string>)
    ensures |ks| == |fs| && forall i :: 0 <= i < |fs| ==> ks[i] == fs[i].key
  {
    if |fs| == 0 then [] else [fs[0].key] + Keys(fs[1..])
  }

  /** `Map::get`. */
  function Get(fs: seq<Field>, k: string): Option<Json>
  {
    if |fs| == 0 then None
    else if fs[0].key == k then Some(fs[0].val)
    else Get(fs[1..], k)
  }

  /** A key has a value exactly when it is among the keys. */
  lemma {:induction false} GetKeys(fs: seq<Field>, k: string)
    ensures Get(fs, k).None? <==> k !in Keys(fs)
  {
    if |fs| > 0 {
      GetKeys(fs[1..], k);
    }
  }

  /** The value under the first field carrying a key. */
  lemma {:induction false} GetAt(fs: seq<Field>, j: nat, k: string)
    requires j < |fs| && fs[j].key == k
    requires forall l :: 0 <= l < j ==> fs[l].key != k
    ensures Get(fs, k) == Some(fs[j].val)
  {
    if j > 0 {
      GetAt(fs[1..], j - 1, k);
    }
  }

  /** A key no field carries has no value. */
  lemma {:induction false} GetAbsent(fs: seq<Field>, k: string)
    requires forall j :: 0 <= j < |fs| ==> fs[j].key != k
    ensures Get(fs, k).None?
  {
    if |fs| > 0 {
      GetAbsent(fs[1..], k);
    }
  }

  predicate HasKey(fs: seq<Field>, k: string)
  {
    Get(fs, k).Some?
  }

  /** `Map::insert`: the key now maps to the value; every other key keeps its value. */
  function Put(fs: seq<Field>, k: string, v: Json): (r: seq<Field>)
    ensures Get(r, k) == Some(v)
    ensures forall k' :: k' != k ==> Get(r, k') == Get(fs, k')
  {
    if |fs| == 0 then [Field(k, v)]
    else if fs[0].key == k then [Field(k, v)] + fs[1..]
    else [fs[0]] + Put(fs[1..], k, v)
  }

  /** An existing key keeps its place; a new key goes last. */
  lemma {:induction false} PutKeys(fs: seq<Field>, k: string, v: Json)
    ensures k in Keys(fs) ==> Keys(Put(fs, k, v)) == Keys(fs)
    ensures k !in Keys(fs) ==> Keys(Put(fs, k, v)) == Keys(fs) + [k]
  {
    if |fs| > 0 {
      if fs[0].key == k {
        assert Keys(Put(fs, k, v)) == [k] + Keys(fs[1..]);
      } else {
        PutKeys(fs[1..], k, v);
        assert Keys(Put(fs, k, v)) == [fs[0].key] + Keys(Put(fs[1..], k, v));
      }
    }
  }

  /** Inserting keeps the keys of an object unique. */
  lemma PutUnique(fs: seq<Field>, k: string, v: Json)
    requires UniqueKeys(fs)
    ensures UniqueKeys(Put(fs, k, v))
  {
    var r := Put(fs, k, v);
    PutKeys(fs, k, v);
    if k !in Keys(fs) {
      assert Keys(r) == Keys(fs) + [k];
      forall i, j | 0 <= i < j < |r| ensures r[i].key != r[j].key {
        assert Keys(r)[i] == r[i].key && Keys(r)[j] == r[j].key;
        if j == |fs| {
          assert Keys(fs)[i] == fs[i].key;
        } else {
          assert Keys(fs)[i] == fs[i].key && Keys(fs)[j] == fs[j].key;
        }
      }
    } else {
      forall i, j | 0 <= i < j < |r| ensures r[i].key != r[j].key {
        assert Keys(r)[i] == r[i].key && Keys(r)[j] == r[j].key;
        assert Keys(fs)[i] == fs[i].key && Keys(fs)[j] == fs[j].key;
      }
    }
  }

  /** Inserting the value a key already has changes nothing. */
  lemma {:induction false} PutSame(fs: seq<Field>, k: string, v: Json)
    requires Get(fs, k) == Some(v)
    ensures Put(fs, k, v) == fs
  {
    if fs[0].key != k {
      PutSame(fs[1..], k, v);
    } else {
      assert fs == [Field(k, v)] + fs[1..];
    }
  }

  /** A second insert under the same key overrides the first one. */
  lemma {:induction false} PutPut(fs: seq<Field>, k: string, a: Json, b: Json)
    ensures Put(Put(fs, k, a), k, b) == Put(fs, k, b)
  {
    if |fs| > 0 && fs[0].key != k {
      PutPut(fs[1..], k, a, b);
    }
  }

  /** `Map::remove`: the key is gone; every other key keeps its value. */
  function Remove(fs: seq<Field>, k: string): (r: seq<Field>)
    ensures Get(r, k).None?
    ensures forall k' :: k' != k ==> Get(r, k') == Get(fs, k')
    ensures Get(fs, k).None? ==> r == fs
  {
    if |fs| == 0 then []
    else if fs[0].key == k then Remove(fs[1..], k)
    else [fs[0]] + Remove(fs[1..], k)
  }

  /** `value.get(key)`: a member of an object, nothing for any other value. */
  function Member(v: Json, k: string): Option<Json>
  {
    match v
    case JObj(fs) => Get(fs, k)
    case _ => None
  }

  /** `value.get(key).and_then(Value::as_str)`. */
  function StrMember(v: Json, k: string): (r: Option<string>)
    ensures r.Some? <==> Member(v, k).Some? && Member(v, k).value.JStr?
  {
    match Member(v, k)
    case Some(JStr(s)) => Some(s)
    case _ => None
  }

  /** `value.get(key).and_then(Value::as_bool)`. */
  function BoolMember(v: Json, k: string): (r: Option<bool>)
    ensures r.Some? <==> Member(v, k).Some? && Member(v, k).value.JBool?
  {
    match Member(v, k)
    case Some(JBool(b)) => Some(b)
    case _ => None
  }

  /** The fields a value has once `ensure_object` has run on it: its own if it is
      an object, none otherwise (the previous value is discarded). */
  function EnsureObject(v: Json): (fs: seq<Field>)
    ensures v.JObj? ==> fs == v.fields
    ensures !v.JObj? ==> fs == []
  {
    match v
    case JObj(fs) => fs
    case _ => []
  }

  /** Walking a list of path segments from a value (`lookup_in`): an object
      step takes a key, an array step a decimal index; anything else fails. */
  function Walk(v: Json, parts: seq<string>): Option<Json>
    decreases |parts|
  {
    if |parts| == 0 then Some(v)
    else
      match v
      case JObj(fs) =>
        (match Get(fs, parts[0])
         case Some(child) => Walk(child, parts[1..])
         case None => None)
      case JArr(items) =>
        (match ParseIndex(parts[0])
         case Some(i) => if i < |items| then Walk(items[i], parts[1..]) else None
         case None => None)
      case _ => None
  }

  /** Walking a concatenated path walks the first part, then the second. */
  lemma {:induction false} WalkAppend(v: Json, p: seq<string>, q: seq<string>)
    decreases |p|
    ensures Walk(v, p + q) == (match Walk(v, p) case Some(w) => Walk(w, q) case None => None)
  {
    if |p| > 0 {
      assert (p + q)[0] == p[0] && (p + q)[1..] == p[1..] + q;
      match v
      case JObj(fs) =>
        if Get(fs, p[0]).Some? { WalkAppend(Get(fs, p[0]).value, p[1..], q); }
      case JArr(items) =>
        var idx := ParseIndex(p[0]);
        if idx.Some? && idx.value < |items| { WalkAppend(items[idx.value], p[1..], q); }
      case _ =>
    } else {
      assert p + q == q;
    }
  }
}
