/**
 * `ClicodConfig`: the settings dictionary, loaded as the defaults overlaid with
 * the saved file, read with `get`, changed with `set`, and the API-key lookup
 * that prefers the stored key and falls back to the environment. Reading and
 * writing `~/.clicod/config.json` is I/O; the file's decoded content is an input.
 */
module Config {
  import opened Wrappers
  import opened Text

  /** A decoded JSON value as the settings dictionary can hold it (numbers are integers here). */
  datatype Value =
    | Null
    | Bool(b: bool)
    | Int(i: int)
    | Str(s: string)
    | List(items: seq<Value>)
    | Object(fields: map<string, Value>)

  /** Python truthiness of a value: `None`, `False`, `0` and empty containers are false. */
  predicate Truthy(v: Value) {
    match v
    case Null => false
    case Bool(b) => b
    case Int(i) => i != 0
    case Str(s) => s != ""
    case List(items) => items != []
    case Object(fields) => fields != map[]
  }

  const ApiKeySetting: string := "gemini_api_key"
  const ModelSetting: string := "default_model"
  const SaveLocationSetting: string := "save_location"
  const AutoSaveSetting: string := "auto_save"
  const StreamingSetting: string := "streaming"
  const JsonFormatSetting: string := "json_format"
  const DefaultModel: string := "gemini-2.5-flash"

  /** The `default_config` dictionary, with the working directory as save location. */
  function Defaults(cwd: string): map<string, Value> {
    map[ApiKeySetting := Null,
        ModelSetting := Str(DefaultModel),
        SaveLocationSetting := Str(cwd),
        AutoSaveSetting := Bool(false),
        StreamingSetting := Bool(false),
        JsonFormatSetting := Bool(true)]
  }

  /** What reading the config file gave: no file, a file that does not decode, or a decoded object. */
  datatype SavedConfig = NoConfigFile | Corrupted | Saved(settings: map<string, Value>)

  /** `_load_config`: the defaults, then `update` with the saved settings when there are any. */
  function LoadConfig(cwd: string, saved: SavedConfig): (c: map<string, Value>)
    ensures forall k :: k in Defaults(cwd) ==> k in c
    ensures saved.Saved? ==> forall k :: k in saved.settings ==> k in c && c[k] == saved.settings[k]
    ensures forall k :: k in c ==> k in Defaults(cwd) || (saved.Saved? && k in saved.settings)
    ensures forall k :: k in Defaults(cwd) && !(saved.Saved? && k in saved.settings) ==> c[k] == Defaults(cwd)[k]
  {
    if saved.Saved? then Defaults(cwd) + saved.settings else Defaults(cwd)
  }

  /** Without a readable saved object, the configuration is exactly the defaults. */
  lemma LoadWithoutFile(cwd: string, saved: SavedConfig)
    requires !saved.Saved?
    ensures LoadConfig(cwd, saved) == Defaults(cwd)
  {
  }

  /** An empty saved object changes nothing. */
  lemma LoadEmptySaved(cwd: string)
    ensures LoadConfig(cwd, Saved(map[])) == LoadConfig(cwd, NoConfigFile)
  {
    assert Defaults(cwd) + map[] == Defaults(cwd);
  }

  /** Loading a configuration that was saved from a loaded one yields it again. */
  lemma LoadSavedConfig(cwd: string, saved: SavedConfig)
    ensures LoadConfig(cwd, Saved(LoadConfig(cwd, saved))) == LoadConfig(cwd, saved)
  {
    var c := LoadConfig(cwd, saved);
    assert Defaults(cwd) + c == c;
  }

  // ---------------------------------------------------------------------------
  // The configuration object

  /** `get_api_key` on values: the stored key if truthy, else the environment, else what the user enters. */
  function ResolveApiKey(stored: Value, env: Option<string>, wantsToSet: bool, entered: string): Value {
    if Truthy(stored) then stored
    else if env.Some? && env.value != "" then Str(env.value)
    else if wantsToSet then Str(entered)
    else if env.Some? then Str(env.value)
    else Null
  }

  /** `get_api_key` stores exactly a non-empty key the user enters after both lookups came up empty. */
  predicate StoresEnteredKey(stored: Value, env: Option<string>, wantsToSet: bool, entered: string) {
    !Truthy(stored) && !(env.Some? && env.value != "") && wantsToSet && entered != ""
  }

  class ClicodConfig {
    var settings: map<string, Value>

    /** `ClicodConfig()`: the loaded configuration. */
    constructor (cwd: string, saved: SavedConfig)
      ensures settings == LoadConfig(cwd, saved)
    {
      var config := Defaults(cwd);
      if saved.Saved? {
        config := config + saved.settings;
      }
      settings := config;
    }

    /** `get(key, default)`. */
    function Get(key: string, default: Value): (v: Value)
      reads this
      ensures key in settings ==> v == settings[key]
      ensures key !in settings ==> v == default
    {
      if key in settings then settings[key] else default
    }

    /** `set(key, value)`: this key now holds that value; every other key is unchanged. */
    method Set(key: string, value: Value)
      modifies this
      ensures settings == old(settings)[key := value]
      ensures Get(key, Null) == value
      ensures forall k :: k != key ==> Get(k, Null) == old(Get(k, Null))
    {
      settings := settings[key := value];
    }

    /**
     * `get_api_key`, with the environment variable, the answer to the "set it
     * now?" question and the entered key as inputs. A key entered at the prompt
     * is stored under `gemini_api_key`.
     */
    method GetApiKey(env: Option<string>, wantsToSet: bool, entered: string) returns (key: Value)
      modifies this
      ensures key == ResolveApiKey(old(Get(ApiKeySetting, Null)), env, wantsToSet, entered)
      ensures StoresEnteredKey(old(Get(ApiKeySetting, Null)), env, wantsToSet, entered) ==>
        settings == old(settings)[ApiKeySetting := Str(entered)]
      ensures !StoresEnteredKey(old(Get(ApiKeySetting, Null)), env, wantsToSet, entered) ==>
        settings == old(settings)
    {
      key := Get(ApiKeySetting, Null);
      if !Truthy(key) {
        key := if env.Some? then Str(env.value) else Null;
      }
      if !Truthy(key) {
        if wantsToSet {
          key := Str(entered);
          if entered != "" {
            Set(ApiKeySetting, key);
          }
        }
      }
    }
  }

  /** The stored key wins whenever it is set; the environment is consulted only when it is not. */
  lemma ApiKeyPrecedence(stored: Value, env: Option<string>, wantsToSet: bool, entered: string)
    ensures Truthy(stored) ==> ResolveApiKey(stored, env, wantsToSet, entered) == stored
    ensures !Truthy(stored) && env.Some? && env.value != "" ==>
      ResolveApiKey(stored, env, wantsToSet, entered) == Str(env.value)
  {
  }

  /** A usable key comes back exactly when one of the three sources supplies one. */
  lemma ApiKeyUsable(stored: Value, env: Option<string>, wantsToSet: bool, entered: string)
    ensures Truthy(ResolveApiKey(stored, env, wantsToSet, entered)) <==>
      Truthy(stored) || (env.Some? && env.value != "") || (wantsToSet && entered != "")
  {
  }

  /** Once a key has been stored, the next lookup returns it without asking. */
  lemma StoredKeyIsReused(stored: Value, env: Option<string>, wantsToSet: bool, entered: string,
                          env2: Option<string>, wantsToSet2: bool, entered2: string)
    requires StoresEnteredKey(stored, env, wantsToSet, entered)
    ensures ResolveApiKey(Str(entered), env2, wantsToSet2, entered2) == ResolveApiKey(stored, env, wantsToSet, entered)
    ensures !StoresEnteredKey(Str(entered), env2, wantsToSet2, entered2)
  {
  }

  // ---------------------------------------------------------------------------
  // Key masking

  const Ellipsis: string := "..."
  const NotSet: string := "Not set"

  /**
   * The API-key cell of the configuration table: the first 8 characters, `...`,
   * the last 4; `Not set` for a falsy value. `None` is the result for a truthy
   * value that is not a string, on which the slicing raises.
   */
  function MaskKey(key: Value): (m: Option<string>)
    ensures !Truthy(key) ==> m == Some(NotSet)
    ensures key.Str? && key.s != "" ==> m.Some? && StartsWith(m.value, Head(key.s, 8)) && EndsWith(m.value, Tail(key.s, 4))
    ensures key.Str? && key.s != "" ==> |m.value| == (if |key.s| < 8 then |key.s| else 8) + 3 + (if |key.s| < 4 then |key.s| else 4)
    ensures key.Str? && key.s != "" ==> m.value[|Head(key.s, 8)|..|Head(key.s, 8)| + 3] == Ellipsis
    ensures m.Some? <==> !Truthy(key) || key.Str?
  {
    if !Truthy(key) then Some(NotSet)
    else if key.Str? then Some(Head(key.s, 8) + Ellipsis + Tail(key.s, 4))
    else None
  }

  /** The mask shows nothing beyond the first 8 and the last 4 characters: keys agreeing there mask alike. */
  lemma MaskHidesMiddle(a: string, b: string)
    requires |a| >= 12 && |b| >= 12
    requires a[..8] == b[..8] && a[|a| - 4..] == b[|b| - 4..]
    ensures MaskKey(Str(a)) == MaskKey(Str(b))
  {
  }

  /** A key of at most 8 characters is shown whole, before the ellipsis. */
  lemma ShortKeyShown(k: string)
    requires 0 < |k| <= 8
    ensures MaskKey(Str(k)) == Some(k + Ellipsis + Tail(k, 4))
  {
    assert k[..|k|] == k;
  }
}
