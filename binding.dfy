/** Data binding (src/render.rs): resolving `@{path}` / `${path}` references
    against the invocation's payload, session, state and template parameters. */
module Binding {
  import opened Wrappers
  import opened Text
  import opened JsonValue
  import opened Model

  /** The four documents a binding can read from. */
  datatype BindingContext = BindingContext(payload: Json, session: Json, state: Json, templateParams: Json)

  /** `BindingContext::from_invocation`: template parameters default to `{}`. */
  function ContextOf(inv: Invocation): (ctx: BindingContext)
    ensures ctx.payload == inv.payload && ctx.session == inv.session && ctx.state == inv.state
    ensures inv.cardSpec.templateParams.None? ==> ctx.templateParams == JObj([])
    ensures inv.cardSpec.templateParams.Some? ==> ctx.templateParams == inv.cardSpec.templateParams.value
  {
    BindingContext(inv.payload, inv.session, inv.state, inv.cardSpec.templateParams.GetOr(JObj([])))
  }

  // ---------------------------------------------------------------------------
  // Binding text: `path || default`
  // ---------------------------------------------------------------------------

  /** A binding's path and its optional default. */
  datatype BindingPath = BindingPath(path: string, default: Option<Json>)

  /** The trimmed text after `||`: none when blank, else its JSON reading,
      else the text itself as a string. */
  function DefaultValue(d: string, codec: Codec): (r: Option<Json>)
    ensures r.None? <==> d == []
  {
    if d == [] then None else Some(codec.parse(d).GetOr(JStr(d)))
  }

  /** `parse_binding_path`: splits at the first `||` only, trims both sides. */
  function ParseBindingPath(raw: string, codec: Codec): BindingPath
  {
    match Find(raw, "||")
    case None => BindingPath(Trim(raw), None)
    case Some(j) => BindingPath(Trim(raw[..j]), DefaultValue(Trim(raw[j + 2..]), codec))
  }

  /** The first `||` separates path and default; later ones belong to the
      default. The path part may hold a lone `|`, but no `||` and no `|` at
      its end (which would start the first `||` one place earlier). */
  lemma ParseAtFirstSeparator(a: string, d: string, codec: Codec)
    requires !Contains(a + "|", "||")
    ensures ParseBindingPath(a + "||" + d, codec) == BindingPath(Trim(a), DefaultValue(Trim(d), codec))
  {
    SeparatorAt(a, d, a + "||" + d);
  }

  lemma SeparatorAt(a: string, d: string, raw: string)
    requires !Contains(a + "|", "||") && raw == a + "||" + d
    ensures Find(raw, "||") == Some(|a|) && raw[..|a|] == a && raw[|a| + 2..] == d
  {
    assert OccursAt(raw, "||", |a|) by {
      assert raw[|a|..|a| + 2] == "||";
    }
    forall j | 0 <= j < |a|
      ensures !OccursAt(raw, "||", j)
    {
      assert !OccursAt(a + "|", "||", j);
      assert raw[j..j + 2] == (a + "|")[j..j + 2];
    }
    FindAt(raw, "||", |a|);
    assert raw[..|a|] == a;
    assert raw[|a| + 2..] == d;
  }

  /** Without `||` the whole text is the path and there is no default. */
  lemma ParseWithoutSeparator(raw: string, codec: Codec)
    requires !Contains(raw, "||")
    ensures ParseBindingPath(raw, codec) == BindingPath(Trim(raw), None)
  {
  }

  /** A blank default counts as no default. */
  lemma BlankDefaultIsNone(a: string, d: string, codec: Codec)
    requires !Contains(a + "|", "||") && IsBlank(d)
    ensures ParseBindingPath(a + "||" + d, codec).default.None?
  {
    ParseAtFirstSeparator(a, d, codec);
    TrimSpec(d);
  }

  // ---------------------------------------------------------------------------
  // Paths: `normalize_path` and `lookup_in`
  // ---------------------------------------------------------------------------

  /** `normalize_path`: `a[0].b` becomes `a.0.b`; leading and trailing dots go. */
  function NormalizePath(path: string): (r: string)
    ensures '[' !in r && ']' !in r
    ensures r == [] || (r[0] != '.' && r[|r| - 1] != '.')
  {
    var a := ReplaceAll(path, "[", ".");
    var b := ReplaceAll(a, "]", "");
    var c := ReplaceAll(b, "..", ".");
    TrimMatches(c, '.')
  }

  /** A bracketed index becomes a dot segment: `key[7]` reads as `key.7`. */
  lemma BracketIndex(key: string, index: string)
    requires |key| > 0 && |index| > 0
    requires '[' !in key && ']' !in key && '.' !in key
    requires '[' !in index && ']' !in index && '.' !in index
    ensures NormalizePath(key + "[" + index + "]") == key + "." + index
  {
    var a := OpenBracketToDot(key, index);
    var b := CloseBracketDropped(key, index);
    SingleDotsKept(key, index);
    assert b[0] == key[0] && b[|b| - 1] == index[|index| - 1];
    assert TrimStartChar(b, '.') == b;
    assert TrimEndChar(b, '.') == b;
  }

  lemma SingleDotsKept(key: string, index: string)
    requires '.' !in key && '.' !in index
    ensures ReplaceAll(key + "." + index, "..", ".") == key + "." + index
  {
    var c := key + "." + index;
    forall j
      ensures !OccursAt(c, "..", j)
    {
      if j < 0 || j + 2 > |c| {
      } else if j < |key| {
        assert c[j..j + 2][0] == key[j];
      } else {
        assert c[j..j + 2][1] == index[j - |key|];
      }
    }
  }

  lemma OpenBracketToDot(key: string, index: string) returns (a: string)
    requires '[' !in key && '[' !in index
    ensures a == key + "." + index + "]"
    ensures ReplaceAll(key + "[" + index + "]", "[", ".") == a
  {
    a := key + "." + index + "]";
    ReplaceCharConcat(key + "[" + index, "]", '[', ".");
    ReplaceCharConcat(key + "[", index, '[', ".");
    ReplaceCharConcat(key, "[", '[', ".");
    ReplaceCharAbsent(key, '[', ".");
    ReplaceCharAbsent(index, '[', ".");
    ReplaceCharAbsent("]", '[', ".");
    assert ReplaceAll("[", "[", ".") == ".";
  }

  lemma CloseBracketDropped(key: string, index: string) returns (b: string)
    requires ']' !in key && ']' !in index
    ensures b == key + "." + index
    ensures ReplaceAll(key + "." + index + "]", "]", "") == b
  {
    b := key + "." + index;
    ReplaceCharConcat(b, "]", ']', "");
    ReplaceCharConcat(key + ".", index, ']', "");
    ReplaceCharConcat(key, ".", ']', "");
    ReplaceCharAbsent(key, ']', "");
    ReplaceCharAbsent(index, ']', "");
    ReplaceCharAbsent(".", ']', "");
    assert ReplaceAll("]", "]", "") == "";
  }

  /** `lookup_in`: walks the segments from a root. */
  method LookupIn(value: Json, parts: seq<string>) returns (r: Option<Json>)
    ensures r == Walk(value, parts)
  {
    var current := value;
    var i := 0;
    while i < |parts|
      invariant 0 <= i <= |parts|
      invariant Walk(current, parts[i..]) == Walk(value, parts)
    {
      assert parts[i..][1..] == parts[i + 1..];
      match current {
        case JObj(fs) =>
          match Get(fs, parts[i]) {
            case None => return None;
            case Some(child) => current := child;
          }
        case JArr(items) =>
          match ParseIndex(parts[i]) {
            case None => return None;
            case Some(idx) =>
              if idx >= |items| {
                return None;
              }
              current := items[idx];
          }
        case _ =>
          return None;
      }
      i := i + 1;
    }
    r := Some(current);
  }

  /** An array step accepts the decimal text of an index in range. */
  lemma WalkIndex(items: seq<Json>, i: nat, rest: seq<string>)
    requires i < |items|
    ensures Walk(JArr(items), [NatToString(i)] + rest) == Walk(items[i], rest)
  {
    ParseNatToString(i);
    assert ([NatToString(i)] + rest)[1..] == rest;
  }

  /** The failure cases of a path walk: a missing key, an index that does not
      parse or is out of range, and a step into a scalar. */
  lemma WalkFailures(v: Json, part: string, rest: seq<string>)
    ensures v.JObj? && !HasKey(v.fields, part) ==> Walk(v, [part] + rest).None?
    ensures v.JArr? && ParseIndex(part).None? ==> Walk(v, [part] + rest).None?
    ensures v.JArr? && ParseIndex(part).Some? && ParseIndex(part).value >= |v.items| ==> Walk(v, [part] + rest).None?
    ensures !v.JObj? && !v.JArr? ==> Walk(v, [part] + rest).None?
  {
    assert ([part] + rest)[0] == part;
  }

  // ---------------------------------------------------------------------------
  // `BindingContext::lookup`
  // ---------------------------------------------------------------------------

  /** The root a leading segment names, if it names one. */
  function NamedRoot(ctx: BindingContext, name: string): Option<Json>
  {
    match name
    case "payload" => Some(ctx.payload)
    case "session" => Some(ctx.session)
    case "state" => Some(ctx.state)
    case "params" => Some(ctx.templateParams)
    case "template" => Some(ctx.templateParams)
    case _ => None
  }

  /** The roots an unprefixed path is tried against, in order. */
  function Roots(ctx: BindingContext): seq<Json>
  {
    [ctx.payload, ctx.session, ctx.state, ctx.templateParams]
  }

  /** The walk from the first root where the path resolves. */
  function FirstHit(roots: seq<Json>, parts: seq<string>): Option<Json>
  {
    if |roots| == 0 then None
    else
      match Walk(roots[0], parts)
      case Some(v) => Some(v)
      case None => FirstHit(roots[1..], parts)
  }

  /** Nothing is found exactly when no root resolves the path; otherwise the
      result is the walk from a root before which none resolves. */
  lemma {:induction false} FirstHitSpec(roots: seq<Json>, parts: seq<string>)
    ensures FirstHit(roots, parts).None? <==> forall i :: 0 <= i < |roots| ==> Walk(roots[i], parts).None?
    ensures FirstHit(roots, parts).Some? ==>
              exists i :: 0 <= i < |roots| && FirstHit(roots, parts) == Walk(roots[i], parts)
                          && forall j :: 0 <= j < i ==> Walk(roots[j], parts).None?
  {
    if |roots| > 0 && Walk(roots[0], parts).None? {
      FirstHitSpec(roots[1..], parts);
      assert forall i :: 0 < i < |roots| ==> roots[i] == roots[1..][i - 1];
      if FirstHit(roots[1..], parts).Some? {
        var i :| 0 <= i < |roots[1..]| && FirstHit(roots[1..], parts) == Walk(roots[1..][i], parts)
                 && forall j :: 0 <= j < i ==> Walk(roots[1..][j], parts).None?;
        assert FirstHit(roots, parts) == Walk(roots[i + 1], parts);
      }
    }
  }

  /** What a path resolves to before defaults apply. */
  function Found(ctx: BindingContext, path: string): Option<Json>
  {
    var segments := Split(path, '.');
    match NamedRoot(ctx, segments[0])
    case Some(root) => Walk(root, segments[1..])
    case None => FirstHit(Roots(ctx), Split(NormalizePath(path), '.'))
  }

  /** A present non-null value wins; otherwise the default, if any. */
  function Coalesce(found: Option<Json>, default: Option<Json>): Option<Json>
  {
    if found.Some? && found.value != JNull then found
    else if default.Some? then default
    else found
  }

  function Lookup(ctx: BindingContext, raw: string, codec: Codec): Option<Json>
  {
    var b := ParseBindingPath(raw, codec);
    Coalesce(Found(ctx, b.path), b.default)
  }

  /** How a default combines with what the path found. */
  lemma LookupDefaults(ctx: BindingContext, raw: string, codec: Codec)
    ensures var b := ParseBindingPath(raw, codec);
            var f := Found(ctx, b.path);
            var r := Lookup(ctx, raw, codec);
            && (f.Some? && f.value != JNull ==> r == f)
            && ((f.None? || f == Some(JNull)) && b.default.Some? ==> r == b.default)
            && (f == Some(JNull) && b.default.None? ==> r == Some(JNull))
            && (f.None? && b.default.None? ==> r.None?)
  {
  }

  /** A path led by `payload`, `session`, `state`, `params` or `template`
      reads that root only, split on dots without bracket normalisation. */
  lemma RootedPathReadsOneRoot(ctx: BindingContext, other: BindingContext, path: string)
    requires NamedRoot(ctx, Split(path, '.')[0]).Some?
    requires NamedRoot(other, Split(path, '.')[0]) == NamedRoot(ctx, Split(path, '.')[0])
    ensures Found(ctx, path) == Walk(NamedRoot(ctx, Split(path, '.')[0]).value, Split(path, '.')[1..])
    ensures Found(other, path) == Found(ctx, path)
  {
  }

  /** Any other path is normalised and tried against the roots in order. */
  lemma UnrootedPath(ctx: BindingContext, path: string)
    requires NamedRoot(ctx, Split(path, '.')[0]).None?
    ensures Found(ctx, path) == FirstHit(Roots(ctx), Split(NormalizePath(path), '.'))
  {
  }

  /** The roots are tried in the order payload, session, state, template
      parameters; the first that resolves wins. */
  lemma RootPrecedence(ctx: BindingContext, parts: seq<string>)
    ensures var f := FirstHit(Roots(ctx), parts);
            && (Walk(ctx.payload, parts).Some? ==> f == Walk(ctx.payload, parts))
            && (Walk(ctx.payload, parts).None? && Walk(ctx.session, parts).Some? ==> f == Walk(ctx.session, parts))
            && (Walk(ctx.payload, parts).None? && Walk(ctx.session, parts).None? && Walk(ctx.state, parts).Some?
                ==> f == Walk(ctx.state, parts))
            && (Walk(ctx.payload, parts).None? && Walk(ctx.session, parts).None? && Walk(ctx.state, parts).None?
                ==> f == Walk(ctx.templateParams, parts))
  {
    var roots := Roots(ctx);
    FirstHitStep(roots, parts);
    FirstHitStep([ctx.session, ctx.state, ctx.templateParams], parts);
    FirstHitStep([ctx.state, ctx.templateParams], parts);
    FirstHitStep([ctx.templateParams], parts);
  }

  lemma FirstHitStep(roots: seq<Json>, parts: seq<string>)
    requires |roots| > 0
    ensures FirstHit(roots, parts) == if Walk(roots[0], parts).Some? then Walk(roots[0], parts) else FirstHit(roots[1..], parts)
  {
  }

  // ---------------------------------------------------------------------------
  // Whole-string bindings
  // ---------------------------------------------------------------------------

  /** The inside of `prefix … }` after trimming, if the trimmed text has that form. */
  function Enclosed(input: string, prefix: string): (r: Option<string>)
    requires |prefix| == 2
    ensures r.Some? ==> |Trim(input)| >= 3 && StartsWith(Trim(input), prefix) && EndsWith(Trim(input), "}")
  {
    var t := Trim(input);
    if StartsWith(t, prefix) && EndsWith(t[2..], "}") then Some(Trim(t[2..|t| - 1])) else None
  }

  /** `extract_single_placeholder`: a whole `@{…}` or `${…}` string. */
  function ExtractSinglePlaceholder(input: string): Option<string>
  {
    match Enclosed(input, "@{")
    case Some(p) => Some(p)
    case None => Enclosed(input, "${")
  }

  /** `extract_expression`: a whole `${…}` string. */
  function ExtractExpression(input: string): Option<string>
  {
    Enclosed(input, "${")
  }

  /** Wrapping a path in a marker and braces, with any surrounding
      whitespace, and extracting it again gives back the trimmed path. */
  lemma PlaceholderRoundTrip(pre: string, marker: char, p: string, post: string)
    requires marker == '@' || marker == '$'
    requires IsBlank(pre) && IsBlank(post)
    ensures ExtractSinglePlaceholder(pre + [marker, '{'] + p + "}" + post) == Some(Trim(p))
    ensures marker == '$' ==> ExtractExpression(pre + [marker, '{'] + p + "}" + post) == Some(Trim(p))
  {
    var core := [marker, '{'] + p + "}";
    var s := pre + core + post;
    assert s == pre + [marker, '{'] + p + "}" + post;
    TrimAround(pre, core, post);
    EnclosedCore(s, [marker, '{'], p);
    if marker == '$' {
      EnclosedOtherMarker(s, "@{");
    }
  }

  /** Text that trims to `prefix … }` encloses the trimmed inside. */
  lemma EnclosedCore(s: string, prefix: string, p: string)
    requires |prefix| == 2
    requires Trim(s) == prefix + p + "}"
    ensures Enclosed(s, prefix) == Some(Trim(p))
  {
    var t := Trim(s);
    assert t[..2] == prefix;
    assert t[2..] == p + "}";
    assert t[2..|t| - 1] == p;
  }

  /** Text whose trimmed form starts with another character encloses nothing. */
  lemma EnclosedOtherMarker(s: string, prefix: string)
    requires |prefix| == 2
    requires |Trim(s)| > 0 && Trim(s)[0] != prefix[0]
    ensures Enclosed(s, prefix).None?
  {
  }

  /** Blank text around a string that starts and ends with non-whitespace is trimmed away. */
  lemma TrimAround(pre: string, core: string, post: string)
    requires IsBlank(pre) && IsBlank(post)
    requires |core| > 0 && !IsWhitespace(core[0]) && !IsWhitespace(core[|core| - 1])
    ensures Trim(pre + core + post) == core
  {
    var s := pre + core + post;
    TrimStartBlank(pre, core + post);
    assert s == pre + (core + post);
    TrimEndBlank(core, post);
  }

  lemma {:induction false} TrimStartBlank(pre: string, rest: string)
    requires IsBlank(pre) && |rest| > 0 && !IsWhitespace(rest[0])
    ensures TrimStart(pre + rest) == rest
    decreases |pre|
  {
    if |pre| > 0 {
      assert (pre + rest)[1..] == pre[1..] + rest;
      TrimStartBlank(pre[1..], rest);
    } else {
      assert pre + rest == rest;
    }
  }

  lemma {:induction false} TrimEndBlank(core: string, post: string)
    requires IsBlank(post) && |core| > 0 && !IsWhitespace(core[|core| - 1])
    ensures TrimEnd(core + post) == core
    decreases |post|
  {
    if |post| > 0 {
      assert (core + post)[..|core + post| - 1] == core + post[..|post| - 1];
      TrimEndBlank(core, post[..|post| - 1]);
    } else {
      assert core + post == core;
    }
  }

  // ---------------------------------------------------------------------------
  // `replace_placeholders`: the left-to-right scanner
  // ---------------------------------------------------------------------------

  /** A placeholder marker, `@{` or `${`, starts at `i`. */
  predicate MarkerAt(s: string, i: int)
  {
    0 <= i && i + 1 < |s| && (s[i] == '@' || s[i] == '$') && s[i + 1] == '{'
  }

  /** Where the next `@{` or `${` at or after `i` starts. */
  function MarkerFrom(s: string, i: nat): (r: Option<nat>)
    requires i <= |s|
    ensures r.Some? ==> i <= r.value && MarkerAt(s, r.value)
    decreases |s| - i
  {
    if i + 1 >= |s| then None
    else if MarkerAt(s, i) then Some(i)
    else MarkerFrom(s, i + 1)
  }

  /** No marker starts before the one found, nor anywhere when none is found. */
  lemma {:induction false} MarkerFromFirst(s: string, i: nat)
    requires i <= |s|
    ensures forall j :: i <= j && (MarkerFrom(s, i).None? || j < MarkerFrom(s, i).value) ==> !MarkerAt(s, j)
    decreases |s| - i
  {
    if i + 1 < |s| && !MarkerAt(s, i) {
      MarkerFromFirst(s, i + 1);
    }
  }

  /** A marker with character `c` occurs in the text from `i` on at offset `j`
      exactly when one starts at `i + j`. */
  lemma MarkerOccurs(s: string, i: nat, c: char, j: int)
    requires i <= |s| && 0 <= j && (c == '@' || c == '$')
    ensures OccursAt(s[i..], [c, '{'], j) <==> MarkerAt(s, i + j) && s[i + j] == c
  {
    if j + 2 <= |s| - i {
      assert s[i..][j..j + 2] == [s[i + j], s[i + j + 1]];
    }
  }

  /** The earlier of two optional positions (the `match` on the two searches). */
  function Earlier(a: Option<nat>, b: Option<nat>): (r: Option<nat>)
    ensures r.None? <==> a.None? && b.None?
    ensures r.Some? ==> (r == a || r == b) && (a.Some? ==> r.value <= a.value) && (b.Some? ==> r.value <= b.value)
  {
    if a.None? then b
    else if b.None? then a
    else Some(if a.value < b.value then a.value else b.value)
  }

  /** The scanner's search: the earlier of the first `@{` and the first `${`
      in the remaining text, counted from the start of the whole text. */
  lemma MarkerFromIsEarliestFind(s: string, i: nat)
    requires i <= |s|
    ensures MarkerFrom(s, i).None? <==> Earlier(Find(s[i..], "@{"), Find(s[i..], "${")).None?
    ensures MarkerFrom(s, i).Some? ==> Earlier(Find(s[i..], "@{"), Find(s[i..], "${")) == Some(MarkerFrom(s, i).value - i)
  {
    match MarkerFrom(s, i) {
      case None => NoMarkerNoFind(s, i);
      case Some(m) => FirstMarkerFound(s, i, m);
    }
  }

  lemma NoMarkerNoFind(s: string, i: nat)
    requires i <= |s| && MarkerFrom(s, i).None?
    ensures Earlier(Find(s[i..], "@{"), Find(s[i..], "${")).None?
  {
    MarkerFromFirst(s, i);
    var t := s[i..];
    forall j | 0 <= j <= |t| ensures !OccursAt(t, "@{", j) && !OccursAt(t, "${", j) {
      MarkerOccurs(s, i, '@', j);
      MarkerOccurs(s, i, '$', j);
    }
    assert !Contains(t, "@{") && !Contains(t, "${");
  }

  lemma FirstMarkerFound(s: string, i: nat, m: nat)
    requires i <= |s| && MarkerFrom(s, i) == Some(m)
    ensures Earlier(Find(s[i..], "@{"), Find(s[i..], "${")) == Some(m - i)
  {
    var t := s[i..];
    if s[m] == '@' {
      MarkerFind(s, t, i, m, '@');
      MarkerFind(s, t, i, m, '$');
    } else {
      MarkerFind(s, t, i, m, '$');
      MarkerFind(s, t, i, m, '@');
    }
  }

  /** Searching for one marker from `i`, given that the first marker of either
      kind starts at `m`: found at `m` if it is that kind, else not before. */
  lemma MarkerFind(s: string, t: string, i: nat, m: nat, c: char)
    requires i <= |s| && t == s[i..] && MarkerFrom(s, i) == Some(m) && (c == '@' || c == '$')
    ensures s[m] == c ==> Find(t, [c, '{']) == Some(m - i)
    ensures s[m] != c ==> Find(t, [c, '{']).None? || Find(t, [c, '{']).value > m - i
  {
    NoMarkerBefore(s, t, i, m);
    MarkerOccurs(s, i, c, m - i);
    if s[m] == c {
      FindAt(t, [c, '{'], m - i);
    } else {
      FindNotBefore(t, [c, '{'], m - i);
    }
  }

  lemma NoMarkerBefore(s: string, t: string, i: nat, m: nat)
    requires i <= |s| && t == s[i..] && MarkerFrom(s, i) == Some(m)
    ensures forall c, j :: (c == '@' || c == '$') && 0 <= j < m - i ==> !OccursAt(t, [c, '{'], j)
  {
    MarkerFromFirst(s, i);
    forall c, j | (c == '@' || c == '$') && 0 <= j < m - i ensures !OccursAt(t, [c, '{'], j) {
      MarkerOccurs(s, i, c, j);
    }
  }

  /** The text a resolved path contributes: a string as is, any other value
      as JSON text, nothing for a path that does not resolve. */
  function Replacement(path: string, ctx: BindingContext, codec: Codec): string
  {
    match Lookup(ctx, Trim(path), codec)
    case Some(JStr(t)) => t
    case Some(v) => codec.show(v)
    case None => ""
  }

  /** What a placeholder's path turns into, by the three cases of `Replacement`. */
  lemma ReplacementCases(path: string, ctx: BindingContext, codec: Codec)
    ensures Lookup(ctx, Trim(path), codec).None? ==> Replacement(path, ctx, codec) == ""
    ensures forall t :: Lookup(ctx, Trim(path), codec) == Some(JStr(t)) ==> Replacement(path, ctx, codec) == t
    ensures forall v :: Lookup(ctx, Trim(path), codec) == Some(v) && !v.JStr? ==> Replacement(path, ctx, codec) == codec.show(v)
  {
  }

  /** The lookup-and-format step as a value, so the scanner's laws hold for
      any way of rendering a path. */
  function Replacer(ctx: BindingContext, codec: Codec): string -> string
  {
    path => Replacement(path, ctx, codec)
  }

  /** The scanner's output from index `i` on: text before the next marker is
      copied, `…{path}` up to the first `}` after the marker is replaced by
      `replace` of the path, and a marker with no `}` after it is copied as
      its single character before scanning resumes right after it. */
  function SubstitutedFrom(s: string, i: nat, replace: string -> string): string
    requires i <= |s|
    decreases |s| - i, 1
  {
    SubstitutedAt(s, i, MarkerFrom(s, i), replace)
  }

  /** The scanner's output from index `i` on, given the next marker. */
  function SubstitutedAt(s: string, i: nat, next: Option<nat>, replace: string -> string): string
    requires i <= |s| && next == MarkerFrom(s, i)
    decreases |s| - i, 0
  {
    match next
    case None => s[i..]
    case Some(at) =>
      match IndexFrom(s, '}', at + 2)
      case Some(close) => s[i..at] + replace(s[at + 2..close]) + SubstitutedFrom(s, close + 1, replace)
      case None => s[i..at] + [s[at]] + SubstitutedFrom(s, at + 1, replace)
  }

  function Substituted(s: string, replace: string -> string): string
  {
    SubstitutedFrom(s, 0, replace)
  }

  lemma RestUnfold(s: string, i: nat, replace: string -> string)
    requires i <= |s| && MarkerFrom(s, i).None?
    ensures SubstitutedFrom(s, i, replace) == s[i..]
  {
  }

  lemma ClosedUnfold(s: string, i: nat, at: nat, close: nat, k: nat, replace: string -> string)
    requires i <= |s| && MarkerFrom(s, i) == Some(at) && IndexFrom(s, '}', at + 2) == Some(close) && k == close + 1
    ensures SubstitutedFrom(s, i, replace) == s[i..at] + replace(s[at + 2..close]) + SubstitutedFrom(s, k, replace)
  {
  }

  lemma UnclosedUnfold(s: string, i: nat, at: nat, k: nat, replace: string -> string)
    requires i <= |s| && MarkerFrom(s, i) == Some(at) && IndexFrom(s, '}', at + 2).None? && k == at + 1
    ensures SubstitutedFrom(s, i, replace) == s[i..at] + [s[at]] + SubstitutedFrom(s, k, replace)
  {
  }

  lemma Regroup(a: string, b: string, c: string, d: string)
    ensures a + (b + c + d) == (a + b + c) + d
  {
  }

  /** The last scanner step: no marker remains and the rest is copied. */
  lemma RestStep(s: string, i: nat, out: string, out': string, total: string, replace: string -> string)
    requires i <= |s| && MarkerFrom(s, i).None?
    requires out + SubstitutedFrom(s, i, replace) == total
    requires out' == out + s[i..]
    ensures out' + SubstitutedFrom(s, |s|, replace) == total
  {
    RestUnfold(s, i, replace);
    RestUnfold(s, |s|, replace);
  }

  /** One scanner step over a closed placeholder. */
  lemma ClosedStep(s: string, i: nat, at: nat, close: nat, out: string, out': string, total: string, replace: string -> string)
    requires i <= |s| && MarkerFrom(s, i) == Some(at) && IndexFrom(s, '}', at + 2) == Some(close)
    requires out + SubstitutedFrom(s, i, replace) == total
    requires out' == out + s[i..at] + replace(s[at + 2..close])
    ensures out' + SubstitutedFrom(s, close + 1, replace) == total
  {
    ClosedUnfold(s, i, at, close, close + 1, replace);
    Regroup(out, s[i..at], replace(s[at + 2..close]), SubstitutedFrom(s, close + 1, replace));
  }

  /** One scanner step over a marker with no closing brace after it. */
  lemma UnclosedStep(s: string, i: nat, at: nat, out: string, out': string, total: string, replace: string -> string)
    requires i <= |s| && MarkerFrom(s, i) == Some(at) && IndexFrom(s, '}', at + 2).None?
    requires out + SubstitutedFrom(s, i, replace) == total
    requires out' == out + s[i..at] + [s[at]]
    ensures out' + SubstitutedFrom(s, at + 1, replace) == total
  {
    UnclosedUnfold(s, i, at, at + 1, replace);
    Regroup(out, s[i..at], [s[at]], SubstitutedFrom(s, at + 1, replace));
  }

  /** One pass of the scanner's loop body: copies the text up to the next
      marker and either replaces the placeholder there or copies the marker
      character; with no marker left it copies the rest. */
  method ScanStep(input: string, cursor: nat, output: string, replace: string -> string, ghost total: string)
    returns (cursor': nat, output': string)
    requires cursor < |input|
    requires output + SubstitutedFrom(input, cursor, replace) == total
    ensures cursor < cursor' <= |input|
    ensures output' + SubstitutedFrom(input, cursor', replace) == total
  {
    var absolute := MarkerFrom(input, cursor);
    if absolute.None? {
      output' := output + input[cursor..];
      RestStep(input, cursor, output, output', total, replace);
      cursor' := |input|;
    } else {
      var end := IndexFrom(input, '}', absolute.value + 2);
      if end.Some? {
        output' := output + input[cursor..absolute.value] + replace(input[absolute.value + 2..end.value]);
        ClosedStep(input, cursor, absolute.value, end.value, output, output', total, replace);
        cursor' := end.value + 1;
      } else {
        output' := output + input[cursor..absolute.value] + [input[absolute.value]];
        UnclosedStep(input, cursor, absolute.value, output, output', total, replace);
        cursor' := absolute.value + 1;
      }
    }
  }

  /** `replace_placeholders`. */
  method ReplacePlaceholders(input: string, ctx: BindingContext, codec: Codec) returns (output: string)
    ensures output == Substituted(input, Replacer(ctx, codec))
  {
    var replace := Replacer(ctx, codec);
    ghost var total := Substituted(input, replace);
    output := "";
    var cursor := 0;
    while cursor < |input|
      invariant 0 <= cursor <= |input|
      invariant output + SubstitutedFrom(input, cursor, replace) == total
      decreases |input| - cursor
    {
      cursor, output := ScanStep(input, cursor, output, replace, total);
    }
    RestUnfold(input, |input|, replace);
  }

  /** Text with neither `@{` nor `${` comes back unchanged. */
  lemma NoMarkerUnchanged(s: string, replace: string -> string)
    requires !Contains(s, "@{") && !Contains(s, "${")
    ensures Substituted(s, replace) == s
  {
    MarkerFromIsEarliestFind(s, 0);
    RestUnfold(s, 0, replace);
    assert s[0..] == s;
  }

  /** Without any `}` there is no placeholder: every marker is copied
      literally and the text comes back unchanged. */
  lemma UnclosedUnchanged(s: string, replace: string -> string)
    requires '}' !in s
    ensures Substituted(s, replace) == s
  {
    UnclosedUnchangedFrom(s, 0, replace);
    assert s[0..] == s;
  }

  lemma {:induction false} UnclosedUnchangedFrom(s: string, i: nat, replace: string -> string)
    requires '}' !in s && i <= |s|
    ensures SubstitutedFrom(s, i, replace) == s[i..]
    decreases |s| - i
  {
    match MarkerFrom(s, i) {
      case None =>
        RestUnfold(s, i, replace);
      case Some(at) =>
        CharAbsentFrom(s, '}', at + 2);
        UnclosedUnfold(s, i, at, at + 1, replace);
        UnclosedUnchangedFrom(s, at + 1, replace);
        assert s[i..] == s[i..at] + [s[at]] + s[at + 1..];
    }
  }

  lemma {:induction false} CharAbsentFrom(s: string, c: char, i: nat)
    requires c !in s && i <= |s|
    ensures IndexFrom(s, c, i).None?
    decreases |s| - i
  {
    if i < |s| {
      CharAbsentFrom(s, c, i + 1);
    }
  }

  /** The path handed to `replace` never contains `}`: it ends at the first one. */
  lemma PathHasNoBrace(s: string, at: nat, close: nat)
    requires at + 2 <= |s| && IndexFrom(s, '}', at + 2) == Some(close)
    ensures '}' !in s[at + 2..close]
  {
    IndexFromFirst(s, '}', at + 2);
    var path := s[at + 2..close];
    forall j | 0 <= j < |path| ensures path[j] != '}' {
      assert path[j] == s[at + 2 + j];
    }
  }

  /** Scanning from inside a text depends only on the text from some earlier
      point on: the prefix before it is never looked at. */
  lemma {:induction false} SubstitutedSuffix(s: string, d: nat, j: nat, replace: string -> string)
    requires d <= j <= |s|
    ensures SubstitutedFrom(s, j, replace) == SubstitutedFrom(s[d..], j - d, replace)
    decreases |s| - j
  {
    match MarkerFrom(s, j) {
      case None =>
        SuffixRest(s, d, j, replace);
      case Some(at) =>
        match IndexFrom(s, '}', at + 2) {
          case Some(close) =>
            var k := close + 1;
            SubstitutedSuffix(s, d, k, replace);
            SuffixClosed(s, d, j, at, close, k, replace);
          case None =>
            var k := at + 1;
            SubstitutedSuffix(s, d, k, replace);
            SuffixUnclosed(s, d, j, at, k, replace);
        }
    }
  }

  lemma SuffixRest(s: string, d: nat, j: nat, replace: string -> string)
    requires d <= j <= |s| && MarkerFrom(s, j).None?
    ensures SubstitutedFrom(s, j, replace) == SubstitutedFrom(s[d..], j - d, replace)
  {
    MarkerSuffix(s, d, j);
    RestUnfold(s, j, replace);
    RestUnfold(s[d..], j - d, replace);
    assert s[j..] == s[d..][j - d..];
  }

  lemma SuffixClosed(s: string, d: nat, j: nat, at: nat, close: nat, k: nat, replace: string -> string)
    requires d <= j <= |s| && MarkerFrom(s, j) == Some(at) && IndexFrom(s, '}', at + 2) == Some(close)
    requires k == close + 1 && d <= k <= |s|
    requires SubstitutedFrom(s, k, replace) == SubstitutedFrom(s[d..], k - d, replace)
    ensures SubstitutedFrom(s, j, replace) == SubstitutedFrom(s[d..], j - d, replace)
  {
    var t := s[d..];
    MarkerSuffixSome(s, t, d, j, at);
    ShiftedClosed(s, t, d, j, at, close, j - d, at - d, close - d, k - d, replace);
    ClosedUnfold(s, j, at, close, k, replace);
    SameHeads(SubstitutedFrom(s, j, replace), SubstitutedFrom(t, j - d, replace), s[j..at] + replace(s[at + 2..close]),
              SubstitutedFrom(s, k, replace), SubstitutedFrom(t, k - d, replace));
  }

  /** The closed-placeholder step seen from the suffix starting at `d`. */
  lemma ShiftedClosed(s: string, t: string, d: nat, j: nat, at: nat, close: nat, j': nat, at': nat, close': nat, k': nat,
                      replace: string -> string)
    requires d <= j <= |s| && t == s[d..] && MarkerFrom(s, j) == Some(at) && IndexFrom(s, '}', at + 2) == Some(close)
    requires j' == j - d && at' == at - d && close' == close - d && k' == close' + 1
    ensures SubstitutedFrom(t, j', replace) == s[j..at] + replace(s[at + 2..close]) + SubstitutedFrom(t, k', replace)
  {
    MarkerSuffixSome(s, t, d, j, at);
    IndexSuffixSome(s, t, d, at + 2, close);
    ClosedUnfold(t, j', at', close', k', replace);
    SuffixSlices(s, t, d, j, at, j', at');
    SuffixSlices(s, t, d, at + 2, close, at' + 2, close');
  }

  /** Two strings with the same head and equal tails are equal. */
  lemma SameHeads(a: string, b: string, head: string, ta: string, tb: string)
    requires a == head + ta && b == head + tb && ta == tb
    ensures a == b
  {
  }

  lemma SuffixUnclosed(s: string, d: nat, j: nat, at: nat, k: nat, replace: string -> string)
    requires d <= j <= |s| && MarkerFrom(s, j) == Some(at) && IndexFrom(s, '}', at + 2).None?
    requires k == at + 1 && d <= k <= |s|
    requires SubstitutedFrom(s, k, replace) == SubstitutedFrom(s[d..], k - d, replace)
    ensures SubstitutedFrom(s, j, replace) == SubstitutedFrom(s[d..], j - d, replace)
  {
    var t := s[d..];
    MarkerSuffixSome(s, t, d, j, at);
    ShiftedUnclosed(s, t, d, j, at, j - d, at - d, k - d, replace);
    UnclosedUnfold(s, j, at, k, replace);
    SameHeads(SubstitutedFrom(s, j, replace), SubstitutedFrom(t, j - d, replace), s[j..at] + [s[at]],
              SubstitutedFrom(s, k, replace), SubstitutedFrom(t, k - d, replace));
  }

  /** The unclosed-marker step seen from the suffix starting at `d`. */
  lemma ShiftedUnclosed(s: string, t: string, d: nat, j: nat, at: nat, j': nat, at': nat, k': nat, replace: string -> string)
    requires d <= j <= |s| && t == s[d..] && MarkerFrom(s, j) == Some(at) && IndexFrom(s, '}', at + 2).None?
    requires j' == j - d && at' == at - d && k' == at' + 1
    ensures SubstitutedFrom(t, j', replace) == s[j..at] + [s[at]] + SubstitutedFrom(t, k', replace)
  {
    MarkerSuffixSome(s, t, d, j, at);
    IndexSuffixNone(s, t, d, at + 2);
    UnclosedUnfold(t, j', at', k', replace);
    SuffixSlices(s, t, d, j, at, j', at');
    assert t[at'] == s[at];
  }

  lemma MarkerSuffixSome(s: string, t: string, d: nat, j: nat, m: nat)
    requires d <= j <= |s| && t == s[d..] && MarkerFrom(s, j) == Some(m)
    ensures m >= d && MarkerFrom(t, j - d) == Some(m - d)
  {
    MarkerSuffix(s, d, j);
  }

  lemma IndexSuffixSome(s: string, t: string, d: nat, j: nat, k: nat)
    requires d <= j <= |s| && t == s[d..] && IndexFrom(s, '}', j) == Some(k)
    ensures k >= d && IndexFrom(t, '}', j - d) == Some(k - d)
  {
    IndexSuffix(s, d, j);
  }

  lemma IndexSuffixNone(s: string, t: string, d: nat, j: nat)
    requires d <= j <= |s| && t == s[d..] && IndexFrom(s, '}', j).None?
    ensures IndexFrom(t, '}', j - d).None?
  {
    IndexSuffix(s, d, j);
  }

  lemma SuffixSlices(s: string, t: string, d: nat, a: nat, b: nat, a': nat, b': nat)
    requires d <= a <= b <= |s| && t == s[d..] && a' == a - d && b' == b - d
    ensures t[a'..b'] == s[a..b]
  {
  }

  lemma {:induction false} MarkerSuffix(s: string, d: nat, j: nat)
    requires d <= j <= |s|
    ensures MarkerFrom(s[d..], j - d) == (match MarkerFrom(s, j) case Some(m) => Some(m - d) case None => None)
    decreases |s| - j
  {
    if j + 1 < |s| {
      assert MarkerAt(s[d..], j - d) == MarkerAt(s, j);
      MarkerSuffix(s, d, j + 1);
    }
  }

  lemma {:induction false} IndexSuffix(s: string, d: nat, j: nat)
    requires d <= j <= |s|
    ensures IndexFrom(s[d..], '}', j - d) == (match IndexFrom(s, '}', j) case Some(k) => Some(k - d) case None => None)
    decreases |s| - j
  {
    if j < |s| {
      assert s[d..][j - d] == s[j];
      IndexSuffix(s, d, j + 1);
    }
  }

  /** A leading placeholder is replaced by what `replace` makes of its path,
      and scanning resumes after its closing brace. */
  lemma LeadingPlaceholder(marker: char, p: string, post: string, replace: string -> string)
    requires marker == '@' || marker == '$'
    requires '}' !in p
    ensures Substituted([marker, '{'] + p + "}" + post, replace) == replace(p) + Substituted(post, replace)
  {
    var s := [marker, '{'] + p + "}" + post;
    LeadingStep(s, marker, p, post, replace);
    SubstitutedSuffix(s, |p| + 3, |p| + 3, replace);
    assert s[|p| + 3..] == post;
  }

  /** A leading placeholder turns into its `Replacement` (the string it
      resolves to, the JSON text of any other value, nothing for a missing
      path, by `ReplacementCases`); the rest is scanned as if on its own. */
  lemma PlaceholderInserted(marker: char, p: string, post: string, ctx: BindingContext, codec: Codec)
    requires marker == '@' || marker == '$'
    requires '}' !in p
    ensures Substituted([marker, '{'] + p + "}" + post, Replacer(ctx, codec))
      == Replacement(p, ctx, codec) + Substituted(post, Replacer(ctx, codec))
  {
    var replace := Replacer(ctx, codec);
    LeadingPlaceholder(marker, p, post, replace);
    assert replace(p) == Replacement(p, ctx, codec);
  }

  lemma LeadingStep(s: string, marker: char, p: string, post: string, replace: string -> string)
    requires marker == '@' || marker == '$'
    requires '}' !in p && s == [marker, '{'] + p + "}" + post
    ensures SubstitutedFrom(s, 0, replace) == replace(p) + SubstitutedFrom(s, |p| + 3, replace)
  {
    LeadingMarker(s, marker, p, post);
    ClosedUnfold(s, 0, 0, |p| + 2, |p| + 3, replace);
    assert s[0..0] + replace(s[2..|p| + 2]) == replace(p);
  }

  /** In a text that opens with a placeholder, the scanner finds the marker
      at 0 and the closing brace right after the path. */
  lemma LeadingMarker(s: string, marker: char, p: string, post: string)
    requires marker == '@' || marker == '$'
    requires '}' !in p && s == [marker, '{'] + p + "}" + post
    ensures MarkerFrom(s, 0) == Some(0) && IndexFrom(s, '}', 2) == Some(|p| + 2) && s[2..|p| + 2] == p
  {
    assert MarkerAt(s, 0);
    assert forall k :: 2 <= k < |p| + 2 ==> s[k] == p[k - 2];
    IndexFromAt(s, '}', 2, |p| + 2);
    assert s[2..|p| + 2] == p;
  }
}
