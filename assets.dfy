/** Locating a card that is not inline (`resolve_card`, `candidate_asset_paths`,
    `candidate_catalog_paths`, `load_with_candidates` in src/render.rs): the
    candidate file paths, tried in order, the first loadable one winning. The
    environment variables, the file system and the host resolver are
    parameters. */
module Assets {
  import opened Wrappers
  import opened Text
  import opened JsonValue
  import opened Model

  /** What resolution reads from outside the component. `assetBase` is
      `ADAPTIVE_CARD_ASSET_BASE`; `assetRegistry` is the map named by
      `ADAPTIVE_CARD_ASSET_REGISTRY` (`Ok(None)` when the variable is unset,
      an error when the file cannot be read or parsed); `catalogFile` the same
      for `ADAPTIVE_CARD_CATALOG_FILE`; `load` reads and parses a card file;
      `hostResolve` asks the host for a path. */
  datatype Environment = Environment(
    assetBase: Option<string>,
    assetRegistry: Result<Option<map<string, string>>, ComponentError>,
    catalogFile: Result<Option<map<string, string>>, ComponentError>,
    load: string -> Result<Json, ComponentError>,
    hostResolve: string -> Result<Option<string>, string>)

  /** `asset_base_path`: the configured base directory, else `assets`. */
  function AssetBase(env: Environment): string
  {
    env.assetBase.GetOr("assets")
  }

  /** `PathBuf::from(base).join(name)` for a relative `name`: a separator is
      added unless `base` is empty or already ends with one. */
  function JoinPath(base: string, name: string): (r: string)
    ensures EndsWith(r, name)
  {
    if base == [] then name
    else if base[|base| - 1] == '/' then base + name
    else base + "/" + name
  }

  /** `Path::is_absolute` on Unix. */
  predicate IsAbsolute(path: string)
  {
    StartsWith(path, "/")
  }

  // ---------------------------------------------------------------------------
  // The `seen` set: a candidate proposed twice is kept at its first position.
  // ---------------------------------------------------------------------------

  predicate NoDuplicates(xs: seq<string>)
  {
    forall i, j :: 0 <= i < j < |xs| ==> xs[i] != xs[j]
  }

  /** The proposals with every repetition of an earlier one dropped. */
  function Dedup(xs: seq<string>): seq<string>
  {
    if xs == [] then []
    else
      var kept := Dedup(xs[..|xs| - 1]);
      if xs[|xs| - 1] in kept then kept else kept + [xs[|xs| - 1]]
  }

  /** Deduplication keeps exactly the proposed values, once each, and the
      first proposal stays first. */
  lemma {:induction false} DedupSpec(xs: seq<string>)
    ensures NoDuplicates(Dedup(xs))
    ensures forall x :: x in Dedup(xs) <==> x in xs
    ensures xs != [] ==> Dedup(xs) != [] && Dedup(xs)[0] == xs[0]
  {
    if xs != [] {
      var init := xs[..|xs| - 1];
      DedupSpec(init);
      assert xs == init + [xs[|xs| - 1]];
    }
  }

  /** Deduplication is the identity on proposals that never repeat. */
  lemma {:induction false} DedupDistinct(xs: seq<string>)
    requires NoDuplicates(xs)
    ensures Dedup(xs) == xs
  {
    if xs != [] {
      var init := xs[..|xs| - 1];
      DedupDistinct(init);
      assert xs == init + [xs[|xs| - 1]];
    }
  }

  /** The state of the `push` closure after `proposed`: the list holds the
      deduplicated proposals and `seen` exactly their values. */
  ghost predicate Tracks(seen: set<string>, list: seq<string>, proposed: seq<string>)
  {
    list == Dedup(proposed) && seen == set x | x in list
  }

  /** The `push` closure: record `value` in `seen` and append it unless it was
      already there. */
  method Push(seen: set<string>, list: seq<string>, ghost proposed: seq<string>, value: string)
    returns (seen': set<string>, list': seq<string>)
    requires Tracks(seen, list, proposed)
    ensures Tracks(seen', list', proposed + [value])
  {
    assert (proposed + [value])[..|proposed|] == proposed;
    if value in seen {
      seen', list' := seen, list;
    } else {
      seen', list' := seen + {value}, list + [value];
    }
  }

  // ---------------------------------------------------------------------------
  // Asset paths
  // ---------------------------------------------------------------------------

  /** The mapping a registry gives `key`, as a list of zero or one. */
  function Mapped(registry: Option<map<string, string>>, key: string): seq<string>
  {
    match registry
    case Some(m) => if key in m then [m[key]] else []
    case None => []
  }

  /** The environment registry as `candidate_asset_paths` sees it: one that
      cannot be read counts as absent there. */
  function EnvRegistry(env: Environment): Option<map<string, string>>
  {
    match env.assetRegistry
    case Ok(registry) => registry
    case Err(_) => None
  }

  /** Push the mapping `registry` gives `key`, if any. */
  method PushMapped(seen: set<string>, list: seq<string>, ghost proposed: seq<string>,
                    registry: Option<map<string, string>>, key: string)
    returns (seen': set<string>, list': seq<string>)
    requires Tracks(seen, list, proposed)
    ensures Tracks(seen', list', proposed + Mapped(registry, key))
  {
    if registry.Some? && key in registry.value {
      seen', list' := Push(seen, list, proposed, registry.value[key]);
    } else {
      assert proposed + Mapped(registry, key) == proposed;
      seen', list' := seen, list;
    }
  }

  /** The test `candidate_asset_paths` uses to take a path as it is. */
  predicate UsedAsGiven(path: string)
  {
    IsAbsolute(path) || StartsWith(path, "./") || StartsWith(path, "../") || '/' in path
  }

  /** The paths tried for `path` itself: as given, or under the base
      directory and then as given. */
  function PathProposals(path: string, base: string): seq<string>
  {
    if UsedAsGiven(path) then [path] else [JoinPath(base, path), path]
  }

  /** Every path the asset lookup proposes, in order, before deduplication. */
  function AssetProposals(path: string, registry: Option<map<string, string>>, env: Environment): seq<string>
  {
    Mapped(registry, path) + Mapped(EnvRegistry(env), path) + PathProposals(path, AssetBase(env))
  }

  /** Push the paths tried for `path` itself. */
  method PushPath(seen: set<string>, list: seq<string>, ghost proposed: seq<string>, path: string, base: string)
    returns (seen': set<string>, list': seq<string>)
    requires Tracks(seen, list, proposed)
    ensures Tracks(seen', list', proposed + PathProposals(path, base))
  {
    if UsedAsGiven(path) {
      seen', list' := Push(seen, list, proposed, path);
    } else {
      var joined := JoinPath(base, path);
      seen', list' := Push(seen, list, proposed, joined);
      seen', list' := Push(seen', list', proposed + [joined], path);
      assert proposed + [joined] + [path] == proposed + PathProposals(path, base);
    }
  }

  /** `candidate_asset_paths`. */
  method CandidateAssetPaths(path: string, registry: Option<map<string, string>>, env: Environment)
    returns (candidates: seq<string>)
    ensures candidates == Dedup(AssetProposals(path, registry, env))
  {
    var seen: set<string> := {};
    candidates := [];
    ghost var proposed: seq<string> := [];
    assert Tracks(seen, candidates, proposed);
    seen, candidates := PushMapped(seen, candidates, proposed, registry, path);
    proposed := proposed + Mapped(registry, path);
    seen, candidates := PushMapped(seen, candidates, proposed, EnvRegistry(env), path);
    proposed := proposed + Mapped(EnvRegistry(env), path);
    seen, candidates := PushPath(seen, candidates, proposed, path, AssetBase(env));
    proposed := proposed + PathProposals(path, AssetBase(env));
    assert proposed == AssetProposals(path, registry, env);
  }

  /** The absolute and `./`, `../` tests are subsumed by the separator test:
      a path is taken as given exactly when it contains `/`. */
  lemma UsedAsGivenIffSeparator(path: string)
    ensures UsedAsGiven(path) <==> '/' in path
  {
    if IsAbsolute(path) {
      assert path[0] == '/';
    }
    if StartsWith(path, "./") {
      assert path[1] == '/';
    }
    if StartsWith(path, "../") {
      assert path[2] == '/';
    }
  }

  /** The asset candidates: the call's registry mapping comes first when there
      is one; the path itself is always tried; a path with a separator adds
      nothing else to the mappings, and one without is also tried under the
      base directory. */
  lemma AssetCandidates(path: string, registry: Option<map<string, string>>, env: Environment)
    ensures var c := Dedup(AssetProposals(path, registry, env));
      && NoDuplicates(c)
      && path in c
      && (registry.Some? && path in registry.value ==> c[0] == registry.value[path])
      && ('/' in path ==> forall x :: x in c <==> (x == path || x in Mapped(registry, path) || x in Mapped(EnvRegistry(env), path)))
      && ('/' !in path ==> forall x :: x in c <==> (x == path || x == JoinPath(AssetBase(env), path)
                                                    || x in Mapped(registry, path) || x in Mapped(EnvRegistry(env), path)))
  {
    var proposals := AssetProposals(path, registry, env);
    DedupSpec(proposals);
    UsedAsGivenIffSeparator(path);
    if registry.Some? && path in registry.value {
      assert proposals[0] == registry.value[path];
    }
  }

  // ---------------------------------------------------------------------------
  // Catalog paths
  // ---------------------------------------------------------------------------

  /** `resolve_catalog_mapping`: the call's registry, then the environment
      registry, then the catalog file; a registry or catalog file that cannot
      be read fails the lookup. */
  function CatalogMapping(name: string, spec: CardSpec, env: Environment): (r: Result<Option<string>, ComponentError>)
    ensures spec.assetRegistry.Some? && name in spec.assetRegistry.value ==> r == Ok(Some(spec.assetRegistry.value[name]))
    ensures r.Err? ==> (env.assetRegistry.Err? && r.error == env.assetRegistry.error)
                       || (env.catalogFile.Err? && r.error == env.catalogFile.error)
  {
    if spec.assetRegistry.Some? && name in spec.assetRegistry.value then Ok(Some(spec.assetRegistry.value[name]))
    else
      match env.assetRegistry
      case Err(e) => Err(e)
      case Ok(registry) =>
        if registry.Some? && name in registry.value then Ok(Some(registry.value[name]))
        else
          match env.catalogFile
          case Err(e) => Err(e)
          case Ok(None) => Ok(None)
          case Ok(Some(catalog)) => Ok(if name in catalog then Some(catalog[name]) else None)
  }

  /** The file a catalog name stands for under the base directory. */
  function CatalogFile(base: string, name: string): string
  {
    base + "/" + name + ".json"
  }

  /** The test `candidate_catalog_paths` uses to also try the name as it is. */
  predicate NameIsPath(name: string)
  {
    IsAbsolute(name) || '/' in name || EndsWith(name, ".json")
  }

  /** Every path the catalog lookup proposes, in order, given the mapping. */
  function CatalogProposals(name: string, mapped: Option<string>, env: Environment): seq<string>
  {
    (match mapped case Some(m) => [m] case None => [])
      + [CatalogFile(AssetBase(env), name)]
      + (if NameIsPath(name) then [name] else [])
  }

  /** `candidate_catalog_paths`. */
  method CandidateCatalogPaths(name: string, spec: CardSpec, env: Environment)
    returns (r: Result<seq<string>, ComponentError>)
    ensures r.Err? <==> CatalogMapping(name, spec, env).Err?
    ensures r.Err? ==> r.error == CatalogMapping(name, spec, env).error
    ensures r.Ok? ==> r.value == Dedup(CatalogProposals(name, CatalogMapping(name, spec, env).value, env))
  {
    var seen: set<string> := {};
    var candidates: seq<string> := [];
    ghost var proposed: seq<string> := [];
    assert Tracks(seen, candidates, proposed);
    var mapping := CatalogMapping(name, spec, env);
    if mapping.Err? {
      return Err(mapping.error);
    }
    if mapping.value.Some? {
      seen, candidates := Push(seen, candidates, proposed, mapping.value.value);
      proposed := proposed + [mapping.value.value];
    }
    var path := CatalogFile(AssetBase(env), name);
    seen, candidates := Push(seen, candidates, proposed, path);
    proposed := proposed + [path];
    if IsAbsolute(name) || '/' in name || EndsWith(name, ".json") {
      seen, candidates := Push(seen, candidates, proposed, name);
      proposed := proposed + [name];
    }
    assert proposed == CatalogProposals(name, mapping.value, env);
    return Ok(candidates);
  }

  /** The catalog candidates: the mapping first when there is one, always the
      `<base>/<name>.json` file, and the name itself exactly when it looks
      like a path. */
  lemma CatalogCandidates(name: string, mapped: Option<string>, env: Environment)
    ensures var c := Dedup(CatalogProposals(name, mapped, env));
      && NoDuplicates(c)
      && CatalogFile(AssetBase(env), name) in c
      && (mapped.Some? ==> c[0] == mapped.value)
      && (mapped.None? ==> c[0] == CatalogFile(AssetBase(env), name))
      && (name in c <==> NameIsPath(name) || Some(name) == mapped || name == CatalogFile(AssetBase(env), name))
      && |c| <= 3
  {
    var proposals := CatalogProposals(name, mapped, env);
    DedupSpec(proposals);
    DedupLength(proposals);
  }

  lemma {:induction false} DedupLength(xs: seq<string>)
    ensures |Dedup(xs)| <= |xs|
  {
    if xs != [] {
      DedupLength(xs[..|xs| - 1]);
    }
  }

  // ---------------------------------------------------------------------------
  // Loading
  // ---------------------------------------------------------------------------

  /** How trying the candidates from `i` on ends: the first card that loads,
      or the error of the last candidate tried (`last` when none is left). */
  datatype Attempt = Loaded(card: Json) | Missing(lastError: Option<ComponentError>)

  function TryFrom(candidates: seq<string>, i: nat, load: string -> Result<Json, ComponentError>,
                   last: Option<ComponentError>): Attempt
    requires i <= |candidates|
    decreases |candidates| - i
  {
    if i == |candidates| then Missing(last)
    else
      match load(candidates[i])
      case Ok(card) => Loaded(card)
      case Err(e) => TryFrom(candidates, i + 1, load, Some(e))
  }

  /** The outcome of `load_with_candidates`: the candidates, then the host's
      answer, then the last error or a message naming the lookup key. */
  function LoadedCard(key: string, candidates: seq<string>, env: Environment): Result<Json, ComponentError>
  {
    match TryFrom(candidates, 0, env.load, None)
    case Loaded(card) => Ok(card)
    case Missing(last) =>
      match env.hostResolve(key)
      case Err(message) => Err(AssetError(message))
      case Ok(Some(host)) => env.load(host)
      case Ok(None) => Err(last.GetOr(InvalidInput("unable to resolve card for " + key)))
  }

  /** `load_with_candidates`. */
  method LoadWithCandidates(key: string, candidates: seq<string>, env: Environment)
    returns (r: Result<Json, ComponentError>)
    ensures r == LoadedCard(key, candidates, env)
  {
    var last: Option<ComponentError> := None;
    for i := 0 to |candidates|
      invariant TryFrom(candidates, i, env.load, last) == TryFrom(candidates, 0, env.load, None)
    {
      var loaded := env.load(candidates[i]);
      if loaded.Ok? {
        return Ok(loaded.value);
      }
      last := Some(loaded.error);
    }
    var host := env.hostResolve(key);
    if host.Err? {
      return Err(AssetError(host.error));
    }
    if host.value.Some? {
      var loaded := env.load(host.value.value);
      if loaded.Ok? {
        return Ok(loaded.value);
      }
      last := Some(loaded.error);
      return Err(last.value);
    }
    if last.Some? {
      return Err(last.value);
    }
    return Err(InvalidInput("unable to resolve card for " + key));
  }

  /** The first candidate that loads wins: the attempt is `Loaded` exactly
      when some candidate loads, with the card of the earliest one. */
  lemma {:induction false} FirstLoadWins(candidates: seq<string>, i: nat, load: string -> Result<Json, ComponentError>,
                                         last: Option<ComponentError>)
    requires i <= |candidates|
    ensures TryFrom(candidates, i, load, last).Loaded?
      <==> exists j :: i <= j < |candidates| && load(candidates[j]).Ok?
    ensures forall j :: (i <= j < |candidates| && load(candidates[j]).Ok?
                         && (forall k :: i <= k < j ==> load(candidates[k]).Err?))
                        ==> TryFrom(candidates, i, load, last) == Loaded(load(candidates[j]).value)
    decreases |candidates| - i
  {
    if i < |candidates| && load(candidates[i]).Err? {
      FirstLoadWins(candidates, i + 1, load, Some(load(candidates[i]).error));
    }
  }

  /** When no candidate loads, what is left is the error of the last one. */
  lemma {:induction false} AllFailKeepsLast(candidates: seq<string>, i: nat, load: string -> Result<Json, ComponentError>,
                                            last: Option<ComponentError>)
    requires i <= |candidates|
    requires forall j :: i <= j < |candidates| ==> load(candidates[j]).Err?
    ensures TryFrom(candidates, i, load, last)
      == Missing(if i == |candidates| then last else Some(load(candidates[|candidates| - 1]).error))
    decreases |candidates| - i
  {
    if i < |candidates| {
      AllFailKeepsLast(candidates, i + 1, load, Some(load(candidates[i]).error));
    }
  }

  // ---------------------------------------------------------------------------
  // `resolve_card`
  // ---------------------------------------------------------------------------

  /** The card `resolve_card` produces, before templating and bindings. */
  function ResolvedCard(source: CardSource, spec: CardSpec, env: Environment): Result<Json, ComponentError>
  {
    match source
    case Inline =>
      if spec.inlineJson.Some? then Ok(spec.inlineJson.value) else Err(InvalidInput("inline_json is required"))
    case Asset =>
      if spec.assetPath.None? then Err(InvalidInput("asset_path is required"))
      else
        var path := spec.assetPath.value;
        LoadedCard(path, Dedup(AssetProposals(path, spec.assetRegistry, env)), env)
    case Catalog =>
      if spec.catalogName.None? then Err(InvalidInput("catalog_name is required"))
      else
        var name := TrimStartChar(spec.catalogName.value, '/');
        match CatalogMapping(name, spec, env)
        case Err(e) => Err(e)
        case Ok(mapped) => LoadedCard(name, Dedup(CatalogProposals(name, mapped, env)), env)
  }

  /** `resolve_card`. */
  method ResolveCard(source: CardSource, spec: CardSpec, env: Environment) returns (r: Result<Json, ComponentError>)
    ensures r == ResolvedCard(source, spec, env)
  {
    match source {
      case Inline =>
        if spec.inlineJson.None? {
          return Err(InvalidInput("inline_json is required"));
        }
        return Ok(spec.inlineJson.value);
      case Asset =>
        if spec.assetPath.None? {
          return Err(InvalidInput("asset_path is required"));
        }
        var path := spec.assetPath.value;
        var candidates := CandidateAssetPaths(path, spec.assetRegistry, env);
        r := LoadWithCandidates(path, candidates, env);
      case Catalog =>
        if spec.catalogName.None? {
          return Err(InvalidInput("catalog_name is required"));
        }
        var normalized := TrimStartChar(spec.catalogName.value, '/');
        var candidates := CandidateCatalogPaths(normalized, spec, env);
        if candidates.Err? {
          return Err(candidates.error);
        }
        r := LoadWithCandidates(normalized, candidates.value, env);
    }
  }

  /** An inline card is returned as given, and a missing source field is an
      invalid-input error naming that field, before any file is touched. */
  lemma ResolveMissingField(source: CardSource, spec: CardSpec, env: Environment)
    ensures source == Inline && spec.inlineJson.Some? ==> ResolvedCard(source, spec, env) == Ok(spec.inlineJson.value)
    ensures source == Inline && spec.inlineJson.None? ==> ResolvedCard(source, spec, env) == Err(InvalidInput("inline_json is required"))
    ensures source == Asset && spec.assetPath.None? ==> ResolvedCard(source, spec, env) == Err(InvalidInput("asset_path is required"))
    ensures source == Catalog && spec.catalogName.None? ==> ResolvedCard(source, spec, env) == Err(InvalidInput("catalog_name is required"))
  {
  }
}
