/** Reading typed values out of a JSON configuration by key path:
    `ProfileLoader` (bot_workflow/profile_loader.py) and `PersonalityLoader`
    (personality_loader.py), whose `_get_raw` and `safe_get` differ only in
    their messages. Decoding the file and pydantic validation are not
    modelled: a loader holds the decoded document, and validating a model
    is an oracle argument. `json.dumps` followed by `json.loads` gives the
    same document back, so that round trip is left out. */
module ConfigLoader {
  import opened Base

  /** A decoded JSON document. An object is the Python dict `json.loads`
      builds: keys in first-seen order, each key once. */
  datatype Json =
    | Null
    | Bool(b: bool)
    | Int(i: int)
    | Float(r: real)
    | Str(s: string)
    | Array(items: seq<Json>)
    | Object(fields: seq<(string, Json)>)

  /** `d[key]` on the fields of an object. */
  function Lookup(fields: seq<(string, Json)>, key: string): (r: Option<Json>)
    ensures r.Some? ==> exists k :: 0 <= k < |fields| && fields[k] == (key, r.value)
    ensures r.None? <==> forall k :: 0 <= k < |fields| ==> fields[k].0 != key
  {
    if fields == [] then None
    else if fields[0].0 == key then Some(fields[0].1)
    else Lookup(fields[1..], key)
  }

  /** Following `path` from `current`: each step needs a dict (TypeError
      otherwise) holding the key (KeyError otherwise). */
  function Walk(current: Json, path: seq<string>): Result<Json>
    decreases |path|
  {
    if path == [] then Ok(current)
    else if !current.Object? then Err(TypeError)
    else
      match Lookup(current.fields, path[0])
      case None => Err(KeyError)
      case Some(v) => Walk(v, path[1..])
  }

  /** `_get_raw`: the value at `path`; a missing key raises KeyError when
      `required` and gives None otherwise; a non-dict on the way raises
      TypeError either way. Python's None is JSON null. */
  function GetRaw(root: Json, path: seq<string>, required: bool): Result<Json>
  {
    match Walk(root, path)
    case Err(KeyError) => if required then Err(KeyError) else Ok(Null)
    case r => r
  }

  /** The loop of `_get_raw`. */
  method GetRawLoop(root: Json, path: seq<string>, required: bool) returns (r: Result<Json>)
    ensures r == GetRaw(root, path, required)
  {
    var current := root;
    for i := 0 to |path|
      invariant Walk(root, path) == Walk(current, path[i..])
    {
      assert path[i..][0] == path[i] && path[i..][1..] == path[i + 1..];
      if !current.Object? {
        return Err(TypeError);
      }
      var next := Lookup(current.fields, path[i]);
      if next.None? {
        return if required then Err(KeyError) else Ok(Null);
      }
      current := next.value;
    }
    return Ok(current);
  }

  /** Walking a path in two pieces is walking the first piece and then the
      second from where it ended; an error in the first piece is the
      error of the whole. */
  lemma {:induction false} WalkAppend(current: Json, p: seq<string>, q: seq<string>)
    ensures Walk(current, p + q) == match Walk(current, p) case Err(e) => Err(e) case Ok(v) => Walk(v, q)
    decreases |p|
  {
    if p == [] {
      assert p + q == q;
    } else {
      assert (p + q)[0] == p[0] && (p + q)[1..] == p[1..] + q;
      if current.Object? {
        var next := Lookup(current.fields, p[0]);
        if next.Some? {
          WalkAppend(next.value, p[1..], q);
        }
      }
    }
  }

  /** An empty path gives the whole document; a missing key is KeyError
      only when required; a non-dict on the way is TypeError. */
  lemma GetRawCases(root: Json, path: seq<string>, required: bool)
    ensures GetRaw(root, [], required) == Ok(root)
    ensures Walk(root, path) == Err(KeyError) ==> GetRaw(root, path, required) == if required then Err(KeyError) else Ok(Null)
    ensures Walk(root, path) == Err(TypeError) ==> GetRaw(root, path, required) == Err(TypeError)
    ensures Walk(root, path).Ok? ==> GetRaw(root, path, required) == Walk(root, path)
    ensures GetRaw(root, path, required).Err? ==> GetRaw(root, path, required).error in {KeyError, TypeError}
  {
    WalkErrors(root, path);
  }

  lemma {:induction false} WalkErrors(current: Json, path: seq<string>)
    ensures Walk(current, path).Err? ==> Walk(current, path).error in {KeyError, TypeError}
    decreases |path|
  {
    if path != [] && current.Object? {
      var next := Lookup(current.fields, path[0]);
      if next.Some? {
        WalkErrors(next.value, path[1..]);
      }
    }
  }

  /** A type given to `isinstance`. `ParameterizedList` is `list[str]`,
      which `isinstance` refuses with TypeError. */
  datatype PyType = StrType | IntType | BoolType | DictType | ListType | ParameterizedList

  /** `isinstance(v, t)`; `bool` is a subclass of `int`. */
  function IsInstance(v: Json, t: PyType): Result<bool>
  {
    match t
    case StrType => Ok(v.Str?)
    case IntType => Ok(v.Int? || v.Bool?)
    case BoolType => Ok(v.Bool?)
    case DictType => Ok(v.Object?)
    case ListType => Ok(v.Array?)
    case ParameterizedList => Err(TypeError)
  }

  /** `safe_get`: the value at `path`, which must not be null (KeyError)
      and must be an instance of `t` (TypeError). */
  function SafeGet(root: Json, path: seq<string>, t: PyType): (r: Result<Json>)
    ensures r.Ok? ==> r.value != Null && IsInstance(r.value, t) == Ok(true)
  {
    match GetRaw(root, path, true)
    case Err(e) => Err(e)
    case Ok(v) =>
      if v == Null then Err(KeyError)
      else
        match IsInstance(v, t)
        case Err(e) => Err(e)
        case Ok(ok) => if ok then Ok(v) else Err(TypeError)
  }

  /** `safe_get` returns the value found, unchanged, exactly when it is
      there, is not null and has the type; a Boolean passes as an int; a
      parameterised list type always fails. */
  lemma SafeGetCases(root: Json, path: seq<string>, t: PyType)
    ensures SafeGet(root, path, t).Ok? <==>
              Walk(root, path).Ok? && Walk(root, path).value != Null && IsInstance(Walk(root, path).value, t) == Ok(true)
    ensures SafeGet(root, path, t).Ok? ==> SafeGet(root, path, t).value == Walk(root, path).value
    ensures Walk(root, path) == Ok(Null) ==> SafeGet(root, path, t) == Err(KeyError)
    ensures Walk(root, path).Ok? && Walk(root, path).value != Null && IsInstance(Walk(root, path).value, t) == Ok(false)
            ==> SafeGet(root, path, t) == Err(TypeError)
    ensures t == ParameterizedList ==> SafeGet(root, path, t).Err?
    ensures Walk(root, path) == Ok(Bool(true)) ==> SafeGet(root, path, IntType) == Ok(Bool(true))
  {
    WalkErrors(root, path);
  }

  /** The pydantic model classes the loaders build. */
  datatype ModelKind = PromptModel | RequestParamsModel | ProviderModel | FalImageGenModel

  /** The type asked for by `safe_get_model`/`safe_get_dict_of_model`: a
      pydantic model, or anything else. */
  datatype Target = PydanticModel(kind: ModelKind) | OtherType

  /** Validating one model from its fields (`model_class(**fields)`). */
  type Validate = (ModelKind, seq<(string, Json)>) -> Result<Json>

  /** `get_dict`: every value of the dict is validated in order; a value
      that is not a dict cannot be unpacked with `**` (TypeError). */
  function ModelsOf(entries: seq<(string, Json)>, kind: ModelKind, validate: Validate): Result<seq<(string, Json)>>
    decreases |entries|
  {
    if entries == [] then Ok([])
    else
      var v := entries[0].1;
      if !v.Object? then Err(TypeError)
      else
        match validate(kind, v.fields)
        case Err(e) => Err(e)
        case Ok(m) =>
          match ModelsOf(entries[1..], kind, validate)
          case Err(e) => Err(e)
          case Ok(rest) => Ok([(entries[0].0, m)] + rest)
  }

  /** On success every key keeps its place and holds its validated value. */
  lemma {:induction false} ModelsOfKeepsKeys(entries: seq<(string, Json)>, kind: ModelKind, validate: Validate)
    ensures ModelsOf(entries, kind, validate).Ok? <==>
              forall k :: 0 <= k < |entries| ==>
                entries[k].1.Object? && validate(kind, entries[k].1.fields).Ok?
    ensures ModelsOf(entries, kind, validate).Ok? ==>
              var r := ModelsOf(entries, kind, validate).value;
              |r| == |entries|
              && forall k :: 0 <= k < |r| ==>
                   r[k] == (entries[k].0, validate(kind, entries[k].1.fields).value)
    decreases |entries|
  {
    if entries != [] {
      ModelsOfKeepsKeys(entries[1..], kind, validate);
      assert forall k :: 1 <= k < |entries| ==> entries[1..][k - 1] == entries[k];
      if ModelsOf(entries, kind, validate).Ok? {
        assert forall k :: 0 <= k < |entries| - 1 ==> entries[k + 1] == entries[1..][k];
      }
    }
  }

  /** `safe_get_dict_of_model` */
  function SafeGetDictOfModel(root: Json, path: seq<string>, target: Target, validate: Validate): Result<seq<(string, Json)>>
  {
    match GetRaw(root, path, true)
    case Err(e) => Err(e)
    case Ok(v) =>
      if v == Null then Err(KeyError)
      else if !target.PydanticModel? then Err(ValueError)
      else if !v.Object? then Err(ValueError)
      else ModelsOf(v.fields, target.kind, validate)
  }

  /** `safe_get_model` */
  function SafeGetModel(root: Json, path: seq<string>, target: Target, validate: Validate): Result<Json>
  {
    match GetRaw(root, path, true)
    case Err(e) => Err(e)
    case Ok(v) =>
      if v == Null then Err(KeyError)
      else if !target.PydanticModel? then Err(ValueError)
      else if !v.Object? then Err(ValueError)
      else validate(target.kind, v.fields)
  }

  /** Asking for something that is not a pydantic model raises ValueError
      once the value is found and is not null. */
  lemma ModelGuards(root: Json, path: seq<string>, validate: Validate)
    ensures Walk(root, path).Ok? && Walk(root, path).value != Null ==>
              SafeGetModel(root, path, OtherType, validate) == Err(ValueError)
              && SafeGetDictOfModel(root, path, OtherType, validate) == Err(ValueError)
    ensures Walk(root, path).Ok? && Walk(root, path).value.Object? ==>
              forall kind :: SafeGetModel(root, path, PydanticModel(kind), validate)
                             == validate(kind, Walk(root, path).value.fields)
  {
  }

  /** `Profile` */
  datatype Profile = Profile(
    botname: string,
    recentMessageHistoryLength: int,
    hasLongTermMemory: bool,
    prompts: seq<(string, Json)>,
    requestParams: seq<(string, Json)>,
    lang: seq<(string, Json)>,
    providers: seq<(string, Json)>,
    regexReplacements: seq<(string, Json)>,
    falImageGenConfig: Json,
    llmFallbacks: seq<Json>)

  /** The integer a value that passed `isinstance(v, int)` stands for. */
  function AsInt(v: Json): int
  {
    match v
    case Int(i) => i
    case Bool(b) => if b then 1 else 0
    case _ => 0
  }

  function ParamPath(name: string): seq<string> { ["profile", "parameters", name] }

  /** `load_profile` as written: the `llm_fallbacks` lookup passes the
      parameterised `list[str]` to `isinstance`. */
  function LoadProfile(root: Json, validate: Validate): Result<Profile>
  {
    LoadProfileWith(root, validate, ParameterizedList)
  }

  /** The four values under "parameters", in source order. */
  function LoadParameters(root: Json, fallbacksType: PyType): Result<(string, int, bool, seq<Json>)>
  {
    match SafeGet(root, ParamPath("botname"), StrType)
    case Err(e) => Err(e)
    case Ok(botname) =>
    match SafeGet(root, ParamPath("recent_message_history_length"), IntType)
    case Err(e) => Err(e)
    case Ok(recent) =>
    match SafeGet(root, ParamPath("has_long_term_memory"), BoolType)
    case Err(e) => Err(e)
    case Ok(ltm) =>
    match SafeGet(root, ParamPath("llm_fallbacks"), fallbacksType)
    case Err(e) => Err(e)
    case Ok(fallbacks) =>
      Ok((botname.s, AsInt(recent), ltm.b, if fallbacks.Array? then fallbacks.items else []))
  }

  /** The dicts of strings under "profile", in source order. */
  function LoadTables(root: Json): Result<(seq<(string, Json)>, seq<(string, Json)>)>
  {
    match SafeGet(root, ["profile", "lang"], DictType)
    case Err(e) => Err(e)
    case Ok(lang) =>
    match SafeGet(root, ["profile", "regex_replacements"], DictType)
    case Err(e) => Err(e)
    case Ok(regex) => Ok((lang.fields, regex.fields))
  }

  /** The pydantic models under "profile", in source order. */
  function LoadModels(root: Json, validate: Validate)
    : Result<(seq<(string, Json)>, seq<(string, Json)>, seq<(string, Json)>, Json)>
  {
    match SafeGetDictOfModel(root, ["profile", "prompts"], PydanticModel(PromptModel), validate)
    case Err(e) => Err(e)
    case Ok(prompts) =>
    match SafeGetDictOfModel(root, ["profile", "request_params"], PydanticModel(RequestParamsModel), validate)
    case Err(e) => Err(e)
    case Ok(requestParams) =>
    match SafeGetDictOfModel(root, ["profile", "providers"], PydanticModel(ProviderModel), validate)
    case Err(e) => Err(e)
    case Ok(providers) =>
    match SafeGetModel(root, ["profile", "fal_image_gen_config"], PydanticModel(FalImageGenModel), validate)
    case Err(e) => Err(e)
    case Ok(fal) => Ok((prompts, requestParams, providers, fal))
  }

  /** `load_profile` with the type of the `llm_fallbacks` check as a
      parameter: the lookups in source order, the first error winning. */
  function LoadProfileWith(root: Json, validate: Validate, fallbacksType: PyType): Result<Profile>
  {
    match LoadParameters(root, fallbacksType)
    case Err(e) => Err(e)
    case Ok(params) =>
    match LoadTables(root)
    case Err(e) => Err(e)
    case Ok(tables) =>
    match LoadModels(root, validate)
    case Err(e) => Err(e)
    case Ok(models) =>
      Ok(Profile(params.0, params.1, params.2, models.0, models.1, tables.0, models.2, tables.1, models.3, params.3))
  }

  /** As written, `load_profile` never returns a profile: either an earlier
      lookup fails or the `llm_fallbacks` check raises TypeError. */
  lemma LoadProfileAlwaysFails(root: Json, validate: Validate)
    ensures LoadProfile(root, validate).Err?
    ensures SafeGet(root, ParamPath("botname"), StrType).Ok?
            && SafeGet(root, ParamPath("recent_message_history_length"), IntType).Ok?
            && SafeGet(root, ParamPath("has_long_term_memory"), BoolType).Ok?
            && Walk(root, ParamPath("llm_fallbacks")).Ok? && Walk(root, ParamPath("llm_fallbacks")).value != Null
            ==> LoadProfile(root, validate) == Err(TypeError)
  {
    SafeGetCases(root, ParamPath("llm_fallbacks"), ParameterizedList);
  }

  /** With the plain `list` check, a document whose values are present and
      well typed loads, and each field is the value found at its path. */
  lemma LoadProfileFixedLoads(root: Json, validate: Validate)
    requires SafeGet(root, ParamPath("botname"), StrType).Ok?
    requires SafeGet(root, ParamPath("recent_message_history_length"), IntType).Ok?
    requires SafeGet(root, ParamPath("has_long_term_memory"), BoolType).Ok?
    requires SafeGet(root, ParamPath("llm_fallbacks"), ListType).Ok?
    requires SafeGet(root, ["profile", "lang"], DictType).Ok?
    requires SafeGet(root, ["profile", "regex_replacements"], DictType).Ok?
    requires SafeGetDictOfModel(root, ["profile", "prompts"], PydanticModel(PromptModel), validate).Ok?
    requires SafeGetDictOfModel(root, ["profile", "request_params"], PydanticModel(RequestParamsModel), validate).Ok?
    requires SafeGetDictOfModel(root, ["profile", "providers"], PydanticModel(ProviderModel), validate).Ok?
    requires SafeGetModel(root, ["profile", "fal_image_gen_config"], PydanticModel(FalImageGenModel), validate).Ok?
    ensures var r := LoadProfileWith(root, validate, ListType);
            r.Ok?
            && Walk(root, ParamPath("botname")) == Ok(Str(r.value.botname))
            && Walk(root, ParamPath("has_long_term_memory")) == Ok(Bool(r.value.hasLongTermMemory))
            && Walk(root, ParamPath("llm_fallbacks")) == Ok(Array(r.value.llmFallbacks))
            && Walk(root, ["profile", "lang"]) == Ok(Object(r.value.lang))
  {
    SafeGetCases(root, ParamPath("botname"), StrType);
    SafeGetCases(root, ParamPath("has_long_term_memory"), BoolType);
    SafeGetCases(root, ParamPath("llm_fallbacks"), ListType);
    SafeGetCases(root, ["profile", "lang"], DictType);
  }

  /** `Personality` */
  datatype Personality = Personality(
    botname: string,
    recentMessageHistoryLength: int,
    hasLongTermMemory: bool,
    prompts: seq<(string, Json)>)

  /** `data["prompts"]`: indexing a dict by a missing key is KeyError;
      indexing anything else by a string is TypeError. */
  function Index(data: Json, key: string): Result<Json>
  {
    if !data.Object? then Err(TypeError)
    else
      match Lookup(data.fields, key)
      case None => Err(KeyError)
      case Some(v) => Ok(v)
  }

  /** `load_personality`: the three parameters through `safe_get`, then the
      prompts read by direct indexing and validated as a dict of prompts. */
  function LoadPersonality(root: Json, validate: Validate): Result<Personality>
  {
    match SafeGet(root, ["parameters", "botname"], StrType)
    case Err(e) => Err(e)
    case Ok(botname) =>
    match SafeGet(root, ["parameters", "recent_message_history_length"], IntType)
    case Err(e) => Err(e)
    case Ok(recent) =>
    match SafeGet(root, ["parameters", "has_long_term_memory"], BoolType)
    case Err(e) => Err(e)
    case Ok(ltm) =>
    match Index(root, "prompts")
    case Err(e) => Err(e)
    case Ok(p) =>
      if !p.Object? then Err(ValueError)
      else
        match ModelsOf(p.fields, PromptModel, validate)
        case Err(e) => Err(e)
        case Ok(prompts) => Ok(Personality(botname.s, AsInt(recent), ltm.b, prompts))
  }

  /** A personality loads exactly when the three parameters are present
      and typed and "prompts" is a dict of valid prompts; its fields are
      the values found. A missing "prompts" is KeyError. */
  lemma LoadPersonalityCases(root: Json, validate: Validate)
    ensures var r := LoadPersonality(root, validate);
            r.Ok? <==>
              SafeGet(root, ["parameters", "botname"], StrType).Ok?
              && SafeGet(root, ["parameters", "recent_message_history_length"], IntType).Ok?
              && SafeGet(root, ["parameters", "has_long_term_memory"], BoolType).Ok?
              && Walk(root, ["prompts"]).Ok? && Walk(root, ["prompts"]).value.Object?
              && ModelsOf(Walk(root, ["prompts"]).value.fields, PromptModel, validate).Ok?
    ensures var r := LoadPersonality(root, validate);
            r.Ok? ==>
              Walk(root, ["parameters", "botname"]) == Ok(Str(r.value.botname))
              && Walk(root, ["parameters", "has_long_term_memory"]) == Ok(Bool(r.value.hasLongTermMemory))
    ensures SafeGet(root, ["parameters", "botname"], StrType).Ok?
            && SafeGet(root, ["parameters", "recent_message_history_length"], IntType).Ok?
            && SafeGet(root, ["parameters", "has_long_term_memory"], BoolType).Ok?
            && Walk(root, ["prompts"]) == Err(KeyError)
            ==> LoadPersonality(root, validate) == Err(KeyError)
  {
    SafeGetCases(root, ["parameters", "botname"], StrType);
    SafeGetCases(root, ["parameters", "has_long_term_memory"], BoolType);
    if root.Object? && Lookup(root.fields, "prompts").Some? {
      assert Walk(root, ["prompts"]) == Walk(Lookup(root.fields, "prompts").value, []);
    }
  }
}
