/** src/validation.rs: locating the invocation a schema check looks at, and
    turning the schema library's errors into validation issues. The schema
    and its checker are outside the model; their errors are an input. */
module Schema {
  import opened Wrappers
  import opened JsonValue
  import opened Model
  import Invocation

  // ---------------------------------------------------------------------------
  // `find_invocation_value`, as a first match over candidates.

  /** The places an invocation may sit, in the order they are tried; a
      place that does not apply is `None`. */
  function Candidates(v: Json): seq<Option<Json>>
  {
    var payload := Member(v, "payload");
    var config := Member(v, "config");
    [if Invocation.CarriesCard(v) then Some(v) else None,
     Member(v, "invocation"),
     Member(v, "card"),
     if payload.Some? && Invocation.CarriesCard(payload.value) then payload else None,
     if config.Some? && Invocation.CarriesCard(config.value) then config else None,
     if config.Some? then Member(config.value, "card") else None]
  }

  /** The first candidate present. */
  function FirstPresent(cs: seq<Option<Json>>): (r: Option<Json>)
    ensures r.Some? <==> exists i :: 0 <= i < |cs| && cs[i].Some?
    ensures r.Some? ==> exists i :: 0 <= i < |cs| && cs[i] == r && forall j :: 0 <= j < i ==> cs[j].None?
  {
    if |cs| == 0 then None
    else if cs[0].Some? then cs[0]
    else
      var rest := FirstPresent(cs[1..]);
      assert forall i :: 1 <= i < |cs| ==> cs[i] == cs[1..][i - 1];
      rest
  }

  /** `find_invocation_value` of src/validation.rs: nothing for a value that
      is not an object, else the first candidate present. */
  function FindInvocationValue(v: Json): Option<Json>
  {
    if v.JObj? then FirstPresent(Candidates(v)) else None
  }

  /** The copy in src/validation.rs finds what the one in src/lib.rs finds. */
  lemma SameAsEntryPoint(v: Json)
    ensures FindInvocationValue(v) == Invocation.FindInvocationValue(v)
  {
    if v.JObj? {
      var cs := Candidates(v);
      assert FirstPresent(cs) == if cs[0].Some? then cs[0] else FirstPresent(cs[1..]);
      assert FirstPresent(cs[1..]) == if cs[1].Some? then cs[1] else FirstPresent(cs[2..]);
      assert FirstPresent(cs[2..]) == if cs[2].Some? then cs[2] else FirstPresent(cs[3..]);
      assert FirstPresent(cs[3..]) == if cs[3].Some? then cs[3] else FirstPresent(cs[4..]);
      assert FirstPresent(cs[4..]) == if cs[4].Some? then cs[4] else FirstPresent(cs[5..]);
      assert FirstPresent(cs[5..]) == if cs[5].Some? then cs[5] else FirstPresent(cs[6..]);
      assert cs[6..] == [];
    }
  }

  // ---------------------------------------------------------------------------
  // `locate_invocation_candidate`.

  /** A member that is an object. */
  function ObjectMember(v: Json, k: string): Option<Json>
  {
    if Member(v, k).Some? && Member(v, k).value.JObj? then Member(v, k) else None
  }

  /** `locate_invocation_candidate`: what `find_invocation_value` finds, else
      the `payload` when it is an object, else the `config` when it is one. */
  function LocateInvocationCandidate(v: Json): Option<Json>
  {
    if FindInvocationValue(v).Some? then FindInvocationValue(v)
    else if ObjectMember(v, "payload").Some? then ObjectMember(v, "payload")
    else ObjectMember(v, "config")
  }

  /** The fallbacks: nothing is located exactly when nothing is found and
      neither `payload` nor `config` is an object; a fallback is always an
      object, the `payload` before the `config`. */
  lemma LocateFallbacks(v: Json)
    ensures LocateInvocationCandidate(v).None? <==>
              Invocation.FindInvocationValue(v).None?
              && (Member(v, "payload").None? || !Member(v, "payload").value.JObj?)
              && (Member(v, "config").None? || !Member(v, "config").value.JObj?)
    ensures Invocation.FindInvocationValue(v).Some? ==> LocateInvocationCandidate(v) == Invocation.FindInvocationValue(v)
    ensures Invocation.FindInvocationValue(v).None? && LocateInvocationCandidate(v).Some? ==>
              LocateInvocationCandidate(v).value.JObj?
              && (LocateInvocationCandidate(v) == Member(v, "payload")
                  || (LocateInvocationCandidate(v) == Member(v, "config") && !(Member(v, "payload").Some? && Member(v, "payload").value.JObj?)))
  {
    SameAsEntryPoint(v);
  }

  // ---------------------------------------------------------------------------
  // `map_schema_error` and `validate_invocation_schema`.

  /** The kinds of schema error the mapping tells apart. */
  datatype SchemaErrorKind = Required | TypeMismatch | EnumMismatch | OtherKind

  /** A schema error: its kind, the JSON pointer of the offending value
      (empty for the root) and its display text. */
  datatype SchemaError = SchemaError(kind: SchemaErrorKind, instancePath: string, message: string)

  function IssueCode(kind: SchemaErrorKind): string
  {
    match kind
    case Required => "AC_INVOCATION_MISSING_FIELD"
    case TypeMismatch => "AC_INVOCATION_INVALID_TYPE"
    case EnumMismatch => "AC_INVOCATION_INVALID_ENUM"
    case OtherKind => "AC_INVOCATION_SCHEMA_ERROR"
  }

  /** `map_schema_error`. */
  function MapSchemaError(e: SchemaError): ValidationIssue
  {
    ValidationIssue(IssueCode(e.kind), e.message, if e.instancePath == [] then "/" else e.instancePath)
  }

  /** The issue keeps the error's text; its path is never empty, is `/` for
      the root and the error's own pointer otherwise; each kind has its own
      code, so the code tells the kind back. */
  lemma MappedIssue(e: SchemaError, f: SchemaError)
    ensures MapSchemaError(e).message == e.message
    ensures MapSchemaError(e).path != []
    ensures e.instancePath != [] ==> MapSchemaError(e).path == e.instancePath
    ensures MapSchemaError(e).path == "/" <==> e.instancePath == [] || e.instancePath == "/"
    ensures MapSchemaError(e).code == MapSchemaError(f).code <==> e.kind == f.kind
  {
    if e.kind != f.kind {
      CodesDiffer(e.kind, f.kind);
    }
  }

  /** Distinct kinds have distinct codes. */
  lemma CodesDiffer(a: SchemaErrorKind, b: SchemaErrorKind)
    requires a != b
    ensures IssueCode(a) != IssueCode(b)
  {
    var ca, cb := IssueCode(a), IssueCode(b);
    assert ca[14] != cb[14] || ca[22] != cb[22];
  }

  /** `validate_invocation_schema`: one issue per schema error, in order. */
  method ValidateInvocationSchema(errors: seq<SchemaError>) returns (issues: seq<ValidationIssue>)
    ensures |issues| == |errors|
    ensures forall i :: 0 <= i < |errors| ==> issues[i] == MapSchemaError(errors[i])
  {
    issues := [];
    for n := 0 to |errors|
      invariant |issues| == n
      invariant forall i :: 0 <= i < n ==> issues[i] == MapSchemaError(errors[i])
    {
      issues := issues + [MapSchemaError(errors[n])];
    }
  }
}
