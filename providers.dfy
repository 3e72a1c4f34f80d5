/** API providers and the environment: `get_environment_var` and
    `parse_api_key_in_config` (core/util/environment_vars.py, and the same
    lookup in environment_vars.py), the `ProviderData` key validators of
    both revisions, `ProviderDataStore`, and the `API_PROVIDERS` list of the
    first revision (providers.py). The process environment is a map from
    variable names to values; `exit(1)` is the error `SystemExit(1)`. */
module Providers {
  import opened Base
  import opened Text

  type Env = map<string, string>

  /** `get_environment_var`: a required variable that is missing or empty
      exits the process; otherwise the value, or "" when it is missing. */
  function GetEnvironmentVar(env: Env, name: string, required: bool): Result<string>
  {
    if required && (name !in env || env[name] == "") then Err(SystemExit(1))
    else Ok(if name in env then env[name] else "")
  }

  lemma GetEnvironmentVarCases(env: Env, name: string, required: bool)
    ensures GetEnvironmentVar(env, name, required).Err?
            <==> required && (name !in env || env[name] == "")
    ensures GetEnvironmentVar(env, name, required).Err? ==> GetEnvironmentVar(env, name, required).error == SystemExit(1)
    ensures GetEnvironmentVar(env, name, required).Ok? ==>
              GetEnvironmentVar(env, name, required).value == (if name in env then env[name] else "")
  {
  }

  /** A key written as "[NAME]" in a configuration. */
  predicate Bracketed(key: string)
  {
    StartsWith(key, "[") && EndsWith(key, "]")
  }

  /** The variable name between the brackets. */
  function BracketedName(key: string): string
    requires Bracketed(key)
  {
    if |key| >= 2 then key[1..|key| - 1] else ""
  }

  /** `parse_api_key_in_config`: "[NAME]" is looked up as a required
      variable; its emptiness check after the lookup raises ValueError. Any
      other key is returned unchanged. */
  function ParseApiKeyInConfig(env: Env, key: string): Result<string>
  {
    if Bracketed(key) then
      match GetEnvironmentVar(env, BracketedName(key), true)
      case Err(e) => Err(e)
      case Ok(loaded) => if loaded == "" then Err(ValueError) else Ok(loaded)
    else Ok(key)
  }

  /** A bracketed key becomes the value of the variable it names, or exits
      when that variable is missing or empty; the ValueError branch is
      never taken, because the lookup already exits on an empty value. */
  lemma ParseApiKeyCases(env: Env, key: string)
    ensures !Bracketed(key) ==> ParseApiKeyInConfig(env, key) == Ok(key)
    ensures Bracketed(key) ==>
              var name := BracketedName(key);
              ParseApiKeyInConfig(env, key)
              == if name in env && env[name] != "" then Ok(env[name]) else Err(SystemExit(1))
    ensures ParseApiKeyInConfig(env, key) != Err(ValueError)
  {
  }

  /** The raw fields of a provider entry in a profile. Only string values
      are modelled. */
  type Fields = map<string, string>

  /** The current revision's validator: an `api_key` field, when present,
      is passed through `parse_api_key_in_config`. */
  function CheckAndLoadApiKey(env: Env, values: Fields): Result<Fields>
  {
    if "api_key" in values then
      match ParseApiKeyInConfig(env, values["api_key"])
      case Err(e) => Err(e)
      case Ok(k) => Ok(values["api_key" := k])
    else Ok(values)
  }

  /** The older revision's validator: a non-empty, bracketed `api_key` is
      replaced by the variable it names, looked up as required. */
  function CheckAndLoadApiKeyLegacy(env: Env, values: Fields): Result<Fields>
  {
    var key := if "api_key" in values then values["api_key"] else "";
    if key != "" && Bracketed(key) then
      match GetEnvironmentVar(env, BracketedName(key), true)
      case Err(e) => Err(e)
      case Ok(loaded) => if loaded == "" then Err(ValueError) else Ok(values["api_key" := loaded])
    else Ok(values)
  }

  /** Only `api_key` is ever changed: a bracketed key becomes the value of
      its variable, any other key is kept; a missing or empty variable
      exits. */
  lemma CheckAndLoadApiKeyEffect(env: Env, values: Fields)
    ensures var r := CheckAndLoadApiKey(env, values);
            if "api_key" in values && Bracketed(values["api_key"]) then
              var name := BracketedName(values["api_key"]);
              r == if name in env && env[name] != "" then Ok(values["api_key" := env[name]]) else Err(SystemExit(1))
            else r == Ok(values)
  {
    if "api_key" in values {
      ParseApiKeyCases(env, values["api_key"]);
      if !Bracketed(values["api_key"]) {
        assert values["api_key" := values["api_key"]] == values;
      }
    }
  }

  /** The two revisions' validators agree on every input. */
  lemma ValidatorsAgree(env: Env, values: Fields)
    ensures CheckAndLoadApiKey(env, values) == CheckAndLoadApiKeyLegacy(env, values)
  {
    CheckAndLoadApiKeyEffect(env, values);
  }

  /** `ProviderData`. */
  datatype ProviderData = ProviderData(providerName: string, apiBase: string, apiKey: string)

  const DEFAULT_API_BASE := "https://api.openai.com/v1"

  /** Building a `ProviderData` from its fields: the validator runs first;
      a missing `provider_name` or `api_key` fails validation (pydantic's
      ValidationError is a ValueError); `api_base` has a default. */
  function MakeProviderData(env: Env, values: Fields): Result<ProviderData>
  {
    match CheckAndLoadApiKey(env, values)
    case Err(e) => Err(e)
    case Ok(v) =>
      if "provider_name" !in v || "api_key" !in v then Err(ValueError)
      else Ok(ProviderData(v["provider_name"], if "api_base" in v then v["api_base"] else DEFAULT_API_BASE, v["api_key"]))
  }

  lemma MakeProviderDataFields(env: Env, values: Fields)
    requires "provider_name" in values && "api_key" in values && !Bracketed(values["api_key"])
    ensures MakeProviderData(env, values)
            == Ok(ProviderData(values["provider_name"],
                               if "api_base" in values then values["api_base"] else DEFAULT_API_BASE,
                               values["api_key"]))
  {
    CheckAndLoadApiKeyEffect(env, values);
  }

  /** `ProviderDataStore`: the providers by name, and the names that may be
      missing. */
  datatype ProviderDataStore = ProviderDataStore(providers: map<string, ProviderData>, optionalNames: seq<string>)

  /** `{p.provider_name: p for p in providers}` */
  function ByName(ps: seq<ProviderData>): (m: map<string, ProviderData>)
    decreases |ps|
  {
    if ps == [] then map[]
    else ByName(ps[..|ps| - 1])[ps[|ps| - 1].providerName := ps[|ps| - 1]]
  }

  function NewStore(ps: seq<ProviderData>, optionalNames: seq<string>): ProviderDataStore
  {
    ProviderDataStore(ByName(ps), optionalNames)
  }

  /** The store holds exactly the names of the list, each mapped to the
      last provider of that name. */
  lemma {:induction false} ByNameKeepsLast(ps: seq<ProviderData>)
    ensures forall name :: name in ByName(ps) <==> exists i :: 0 <= i < |ps| && ps[i].providerName == name
    ensures forall i :: 0 <= i < |ps| && (forall j :: i < j < |ps| ==> ps[j].providerName != ps[i].providerName)
                        ==> ByName(ps)[ps[i].providerName] == ps[i]
    decreases |ps|
  {
    if ps != [] {
      var prefix := ps[..|ps| - 1];
      ByNameKeepsLast(prefix);
      forall name | name in ByName(ps)
        ensures exists i :: 0 <= i < |ps| && ps[i].providerName == name
      {
        if name != ps[|ps| - 1].providerName {
          var i :| 0 <= i < |prefix| && prefix[i].providerName == name;
          assert ps[i] == prefix[i];
        }
      }
      forall i | 0 <= i < |ps| && (forall j :: i < j < |ps| ==> ps[j].providerName != ps[i].providerName)
        ensures ByName(ps)[ps[i].providerName] == ps[i]
      {
        if i < |ps| - 1 {
          assert ps[i] == prefix[i];
          assert forall j :: i < j < |prefix| ==> prefix[j] == ps[j];
        }
      }
      forall name | exists i :: 0 <= i < |ps| && ps[i].providerName == name
        ensures name in ByName(ps)
      {
        var i :| 0 <= i < |ps| && ps[i].providerName == name;
        if i < |ps| - 1 {
          assert prefix[i] == ps[i];
        }
      }
    }
  }

  /** `get_provider_by_name`: the stored provider, None for a missing
      optional name, ValueError for a missing required one. */
  function GetProviderByName(store: ProviderDataStore, name: string): Result<Option<ProviderData>>
  {
    if name in store.providers then Ok(Some(store.providers[name]))
    else if name in store.optionalNames then Ok(None)
    else Err(ValueError)
  }

  lemma GetProviderByNameCases(ps: seq<ProviderData>, optionalNames: seq<string>, name: string)
    ensures var r := GetProviderByName(NewStore(ps, optionalNames), name);
            var listed := exists i :: 0 <= i < |ps| && ps[i].providerName == name;
            (r.Ok? && r.value.Some? <==> listed)
            && (r == Ok(None) <==> !listed && name in optionalNames)
            && (r == Err(ValueError) <==> !listed && name !in optionalNames)
            && (r.Ok? && r.value.Some? ==>
                  r.value.value.providerName == name
                  && forall j :: 0 <= j < |ps| && ps[j].providerName == name ==> exists i :: j <= i < |ps| && ps[i] == r.value.value)
  {
    ByNameKeepsLast(ps);
    var r := GetProviderByName(NewStore(ps, optionalNames), name);
    if r.Ok? && r.value.Some? {
      var i :| 0 <= i < |ps| && ps[i].providerName == name;
      var last := LastNamed(ps, name, i);
      forall j | 0 <= j < |ps| && ps[j].providerName == name
        ensures exists i :: j <= i < |ps| && ps[i] == r.value.value
      {
        assert j <= last;
      }
    }
  }

  /** The last index holding `name`, at or after `i`. */
  lemma LastNamed(ps: seq<ProviderData>, name: string, i: nat) returns (last: nat)
    requires i < |ps| && ps[i].providerName == name
    ensures i <= last < |ps| && ps[last].providerName == name
    ensures forall j :: last < j < |ps| ==> ps[j].providerName != name
    ensures name in ByName(ps) && ByName(ps)[name] == ps[last]
    ensures forall j :: 0 <= j < |ps| && ps[j].providerName == name ==> j <= last
    decreases |ps| - i
  {
    ByNameKeepsLast(ps);
    if j :| i < j < |ps| && ps[j].providerName == name {
      last := LastNamed(ps, name, j);
    } else {
      last := i;
    }
  }

  /** A `Provider` of the first revision (providers.py). */
  datatype Provider = Provider(providerName: string, apiBase: string, apiKey: string)

  const ENVIRONMENT_VAR_NAME := "API_PROVIDERS"

  const INVALID_PROVIDERS := "Invalid API_PROVIDERS environment variable, must be a list of JSON objects containing provider_name, api_base, api_key"

  predicate HasProviderFields(d: Fields)
  {
    "provider_name" in d && "api_base" in d && "api_key" in d
  }

  /** `_parse_providers` on the decoded list: one `Provider` per entry, in
      order; an entry without one of the three fields raises RuntimeError. */
  function ParseProviders(entries: seq<Fields>): (r: Result<seq<Provider>>)
    decreases |entries|
  {
    if entries == [] then Ok([])
    else
      match ParseProviders(entries[..|entries| - 1])
      case Err(e) => Err(e)
      case Ok(ps) =>
        var d := entries[|entries| - 1];
        if HasProviderFields(d) then Ok(ps + [Provider(d["provider_name"], d["api_base"], d["api_key"])])
        else Err(RuntimeError(INVALID_PROVIDERS))
  }

  /** The loop of `_parse_providers`. */
  method ParseProvidersLoop(entries: seq<Fields>) returns (r: Result<seq<Provider>>)
    ensures r == ParseProviders(entries)
  {
    var providers := [];
    for i := 0 to |entries|
      invariant ParseProviders(entries[..i]) == Ok(providers)
    {
      assert entries[..i + 1][..i] == entries[..i];
      var d := entries[i];
      if !HasProviderFields(d) {
        FirstBadEntryFails(entries, i);
        return Err(RuntimeError(INVALID_PROVIDERS));
      }
      providers := providers + [Provider(d["provider_name"], d["api_base"], d["api_key"])];
    }
    assert entries[..|entries|] == entries;
    return Ok(providers);
  }

  /** Once an entry lacks a field, every longer prefix fails. */
  lemma {:induction false} FirstBadEntryFails(entries: seq<Fields>, i: nat)
    requires i < |entries| && !HasProviderFields(entries[i])
    requires ParseProviders(entries[..i]).Ok?
    ensures ParseProviders(entries) == Err(RuntimeError(INVALID_PROVIDERS))
    decreases |entries|
  {
    if |entries| - 1 > i {
      var prefix := entries[..|entries| - 1];
      assert prefix[..i] == entries[..i];
      FirstBadEntryFails(prefix, i);
    } else {
      assert entries[..|entries| - 1] == entries[..i];
    }
  }

  /** Parsing succeeds exactly when every entry has the three fields, and
      then yields one provider per entry, field for field. */
  lemma {:induction false} ParseProvidersSpec(entries: seq<Fields>)
    ensures ParseProviders(entries).Ok? <==> forall i :: 0 <= i < |entries| ==> HasProviderFields(entries[i])
    ensures ParseProviders(entries).Err? ==> ParseProviders(entries).error == RuntimeError(INVALID_PROVIDERS)
    ensures ParseProviders(entries).Ok? ==>
              var ps := ParseProviders(entries).value;
              |ps| == |entries|
              && forall i :: 0 <= i < |ps| ==>
                   ps[i] == Provider(entries[i]["provider_name"], entries[i]["api_base"], entries[i]["api_key"])
    decreases |entries|
  {
    if entries != [] {
      var prefix := entries[..|entries| - 1];
      ParseProvidersSpec(prefix);
      assert forall i :: 0 <= i < |prefix| ==> prefix[i] == entries[i];
    }
  }

  /** `get_provider_by_name` of the first revision: the first provider of
      that name; none gives RuntimeError. */
  method GetProviderByNameFirst(providers: seq<Provider>, name: string) returns (r: Result<Provider>)
    ensures r.Ok? <==> exists i :: 0 <= i < |providers| && providers[i].providerName == name
    ensures r.Ok? ==> exists i :: 0 <= i < |providers| && providers[i] == r.value
                        && r.value.providerName == name
                        && forall j :: 0 <= j < i ==> providers[j].providerName != name
    ensures r.Err? ==> r.error == RuntimeError(MissingProvider(name))
  {
    for i := 0 to |providers|
      invariant forall j :: 0 <= j < i ==> providers[j].providerName != name
    {
      if providers[i].providerName == name {
        return Ok(providers[i]);
      }
    }
    return Err(RuntimeError(MissingProvider(name)));
  }

  /** The message of the missing-provider error (the two f-strings are
      joined without a space). */
  function MissingProvider(name: string): string
  {
    "Missing provider named " + name + ", please add it to the " + ENVIRONMENT_VAR_NAME + "environment variable"
  }

  /** The providers loaded at import time: the required `API_PROVIDERS`
      variable, decoded (a decoding failure is a ValueError, as
      `json.JSONDecodeError` is one) and parsed. */
  function LoadProviders(env: Env, decode: string -> Option<seq<Fields>>): Result<seq<Provider>>
  {
    match GetEnvironmentVar(env, ENVIRONMENT_VAR_NAME, true)
    case Err(e) => Err(e)
    case Ok(json) =>
      match decode(json)
      case None => Err(ValueError)
      case Some(entries) => ParseProviders(entries)
  }

  lemma LoadProvidersNeedsVariable(env: Env, decode: string -> Option<seq<Fields>>)
    ensures ENVIRONMENT_VAR_NAME !in env || env[ENVIRONMENT_VAR_NAME] == ""
            <==> LoadProviders(env, decode) == Err(SystemExit(1))
  {
    if ENVIRONMENT_VAR_NAME in env && env[ENVIRONMENT_VAR_NAME] != "" {
      var json := env[ENVIRONMENT_VAR_NAME];
      if decode(json).Some? {
        ParseProvidersSpec(decode(json).value);
      }
    }
  }
}
