/** The `Addon` accessor of `xbmcaddon`, as a state machine over explicit
    maps. The process state it reads and writes is an `Env`: the active
    plugin id and the addon registry (both supplied by the support
    collaborator) and the module-wide override table `mock_data["setting"]`.
    An accessor is the id of the registry record it holds; every setter
    returns whether it accepted the value together with the next `Env`. */
module KodiAddon {
  import opened Base

  /** A Python value handed to a setter, tagged with its runtime type.
      `VFloat` stands for a Python float; only its tag matters here. */
  datatype Value = VBool(b: bool) | VInt(i: int) | VStr(s: string) | VFloat(f: real)

  /** Python's `isinstance(v, bool)`. */
  predicate IsInstanceBool(v: Value)
  {
    v.VBool?
  }

  /** Python's `isinstance(v, int)`: `bool` is a subclass of `int`. */
  predicate IsInstanceInt(v: Value)
  {
    v.VInt? || v.VBool?
  }

  /** One installed addon: its informational properties, its localized
      strings and its settings. */
  datatype AddonRecord = AddonRecord(
    info: map<string, string>,
    strings: map<int, string>,
    settings: map<string, Value>)

  /** `pluginId` is the active addon, `addons` the registry, `overrides`
      the table `mock_data["setting"]` consulted before any addon's own
      settings. */
  datatype Env = Env(
    pluginId: string,
    addons: map<string, AddonRecord>,
    overrides: map<string, Value>)

  /** The `RuntimeError` of construction and the `KeyError`s of lookups. */
  datatype AddonError =
    | UnknownAddonId(id: string)
    | MissingString(stringId: int)
    | MissingSetting(settingId: string)

  /** A constructed accessor: the id of the registry record it holds. */
  datatype Addon = Addon(id: string)

  /** The accessor's record is in the registry, as construction ensures. */
  predicate Bound(env: Env, addon: Addon)
  {
    addon.id in env.addons
  }

  /** What a setter returns: its boolean result and the state after it. */
  datatype SetOutcome = SetOutcome(accepted: bool, env: Env)

  /** `Addon(id)`: `None` resolves to the active plugin id; an id missing
      from the registry raises. */
  function NewAddon(env: Env, id: Option<string>): (r: Result<Addon, AddonError>)
    ensures r.Ok? ==> Bound(env, r.value)
    ensures r.Ok? && id.Some? ==> r.value.id == id.value
    ensures r.Ok? && id.None? ==> r.value.id == env.pluginId
    ensures r.Err? && id.Some? ==> r.error == UnknownAddonId(id.value) && id.value !in env.addons
    ensures r.Err? && id.None? ==> r.error == UnknownAddonId(env.pluginId) && env.pluginId !in env.addons
  {
    var want := if id.None? then env.pluginId else id.value;
    if want in env.addons then Ok(Addon(want)) else Err(UnknownAddonId(want))
  }

  /** `getAddonInfo(key)`: the property's text, or `""` when the record has
      no such property; it never fails. */
  function GetAddonInfo(env: Env, addon: Addon, key: string): (r: string)
    requires Bound(env, addon)
    ensures key in env.addons[addon.id].info ==> r == env.addons[addon.id].info[key]
    ensures key !in env.addons[addon.id].info ==> r == ""
  {
    var info := env.addons[addon.id].info;
    if key in info then info[key] else ""
  }

  /** `getLocalizedString(id)`: no fallback for an undefined id. */
  function GetLocalizedString(env: Env, addon: Addon, stringId: int): (r: Result<string, AddonError>)
    requires Bound(env, addon)
    ensures r.Ok? <==> stringId in env.addons[addon.id].strings
    ensures r.Ok? ==> r.value == env.addons[addon.id].strings[stringId]
    ensures r.Err? ==> r.error == MissingString(stringId)
  {
    var strings := env.addons[addon.id].strings;
    if stringId in strings then Ok(strings[stringId]) else Err(MissingString(stringId))
  }

  /** `getSetting(k)`: the override wins; otherwise the addon's own value;
      a key in neither raises. */
  function GetSetting(env: Env, addon: Addon, k: string): (r: Result<Value, AddonError>)
    requires Bound(env, addon)
    ensures k in env.overrides ==> r == Ok(env.overrides[k])
    ensures k !in env.overrides ==> (r.Ok? <==> k in env.addons[addon.id].settings)
    ensures k !in env.overrides && r.Ok? ==> r.value == env.addons[addon.id].settings[k]
    ensures r.Err? ==> r.error == MissingSetting(k)
  {
    if k in env.overrides then Ok(env.overrides[k])
    else
      var settings := env.addons[addon.id].settings;
      if k in settings then Ok(settings[k]) else Err(MissingSetting(k))
  }

  /** The two texts `getSettingBool` reads as true. */
  predicate IsTrueText(v: Value)
  {
    v == VStr("true") || v == VStr("1")
  }

  /** `getSettingBool(k)`: true exactly when the resolved value is the text
      `"true"` or `"1"`; a missing key raises as in `getSetting`. */
  function GetSettingBool(env: Env, addon: Addon, k: string): (r: Result<bool, AddonError>)
    requires Bound(env, addon)
    ensures r.Err? <==> GetSetting(env, addon, k).Err?
    ensures r.Err? ==> r.error == MissingSetting(k)
    ensures r.Ok? ==> (r.value <==> IsTrueText(GetSetting(env, addon, k).value))
  {
    match GetSetting(env, addon, k)
    case Ok(v) => Ok(IsTrueText(v))
    case Err(e) => Err(e)
  }

  /** `getSettingString(k)`: resolved as `getSetting(k)` is, the override
      first, then the addon's own value, and a key in neither raises. */
  function GetSettingString(env: Env, addon: Addon, k: string): (r: Result<Value, AddonError>)
    requires Bound(env, addon)
    ensures k in env.overrides ==> r == Ok(env.overrides[k])
    ensures k !in env.overrides ==> (r.Ok? <==> k in env.addons[addon.id].settings)
    ensures k !in env.overrides && r.Ok? ==> r.value == env.addons[addon.id].settings[k]
    ensures r.Err? ==> r.error == MissingSetting(k)
  {
    GetSetting(env, addon, k)
  }

  /** `setSetting(k, value)`: stores the value as given in the addon's own
      settings and returns True. The override table, the other addons and
      the record's other parts are untouched. */
  function SetSetting(env: Env, addon: Addon, k: string, value: Value): (r: SetOutcome)
    requires Bound(env, addon)
    ensures r.accepted
    ensures r.env.pluginId == env.pluginId && r.env.overrides == env.overrides
    ensures r.env.addons.Keys == env.addons.Keys
    ensures forall id :: id in env.addons && id != addon.id ==> r.env.addons[id] == env.addons[id]
    ensures r.env.addons[addon.id].info == env.addons[addon.id].info
    ensures r.env.addons[addon.id].strings == env.addons[addon.id].strings
    ensures r.env.addons[addon.id].settings == env.addons[addon.id].settings[k := value]
  {
    var rec := env.addons[addon.id];
    var rec' := rec.(settings := rec.settings[k := value]);
    SetOutcome(true, env.(addons := env.addons[addon.id := rec']))
  }

  /** Python's `str(b)` for a `bool`. */
  function BoolRepr(b: bool): string
  {
    if b then "True" else "False"
  }

  /** Python's `str.lower()` on one character, for the ASCII letters. */
  function LowerChar(c: char): char
  {
    if 'A' <= c <= 'Z' then (c as int + 32) as char else c
  }

  /** Python's `s.lower()` restricted to ASCII letters. */
  function Lower(s: string): (r: string)
    ensures |r| == |s|
    ensures forall i :: 0 <= i < |s| ==> r[i] == LowerChar(s[i])
  {
    if |s| == 0 then [] else [LowerChar(s[0])] + Lower(s[1..])
  }

  /** `setSettingBool(k, value)`: a bool is stored as the text
      `str(value).lower()`, i.e. `"true"` or `"false"`; any other value is
      refused with False and the state is unchanged. */
  function SetSettingBool(env: Env, addon: Addon, k: string, value: Value): (r: SetOutcome)
    requires Bound(env, addon)
    ensures r.accepted <==> value.VBool?
    ensures !value.VBool? ==> r.env == env
    ensures value.VBool? ==>
      r.env == SetSetting(env, addon, k, VStr(if value.b then "true" else "false")).env
  {
    if IsInstanceBool(value) then
      assert Lower(BoolRepr(value.b)) == if value.b then "true" else "false";
      SetSetting(env, addon, k, VStr(Lower(BoolRepr(value.b))))
    else SetOutcome(false, env)
  }

  /** `setSettingString(k, value)`: stores `ensure_unicode(value)`; the
      normaliser `toUnicode` comes from outside the model. */
  function SetSettingString(env: Env, addon: Addon, k: string, value: Value, toUnicode: Value -> Value): (r: SetOutcome)
    requires Bound(env, addon)
    ensures r.accepted
    ensures r.env.pluginId == env.pluginId && r.env.overrides == env.overrides
    ensures r.env.addons.Keys == env.addons.Keys
    ensures forall id :: id in env.addons && id != addon.id ==> r.env.addons[id] == env.addons[id]
    ensures r.env.addons[addon.id].info == env.addons[addon.id].info
    ensures r.env.addons[addon.id].strings == env.addons[addon.id].strings
    ensures r.env.addons[addon.id].settings == env.addons[addon.id].settings[k := toUnicode(value)]
  {
    SetSetting(env, addon, k, toUnicode(value))
  }

  /** `setSettingInt(k, value)`: an int (a bool included) goes on to
      `setSettingString`; any other value is refused with False and the
      state is unchanged. */
  function SetSettingInt(env: Env, addon: Addon, k: string, value: Value, toUnicode: Value -> Value): (r: SetOutcome)
    requires Bound(env, addon)
    ensures r.accepted <==> value.VInt? || value.VBool?
    ensures !r.accepted ==> r.env == env
    ensures r.accepted ==> r == SetSettingString(env, addon, k, value, toUnicode)
  {
    if IsInstanceInt(value) then SetSettingString(env, addon, k, value, toUnicode)
    else SetOutcome(false, env)
  }

  /** Reading back a key just written: the override, if the key has one,
      still wins; otherwise the written value is returned. */
  lemma SetSettingThenGet(env: Env, addon: Addon, k: string, value: Value)
    requires Bound(env, addon)
    ensures Bound(SetSetting(env, addon, k, value).env, addon)
    ensures k in env.overrides ==>
      GetSetting(SetSetting(env, addon, k, value).env, addon, k) == Ok(env.overrides[k])
    ensures k !in env.overrides ==>
      GetSetting(SetSetting(env, addon, k, value).env, addon, k) == Ok(value)
  {
  }

  /** A write touches one key of one addon: every other read through any
      bound accessor is as before, and the same accessors stay bound. */
  lemma SetSettingFrame(env: Env, addon: Addon, k: string, value: Value, other: Addon, j: string, stringId: int, key: string)
    requires Bound(env, addon) && Bound(env, other)
    ensures Bound(SetSetting(env, addon, k, value).env, other)
    ensures other.id != addon.id || j != k ==>
      GetSetting(SetSetting(env, addon, k, value).env, other, j) == GetSetting(env, other, j)
    ensures GetLocalizedString(SetSetting(env, addon, k, value).env, other, stringId)
            == GetLocalizedString(env, other, stringId)
    ensures GetAddonInfo(SetSetting(env, addon, k, value).env, other, key)
            == GetAddonInfo(env, other, key)
  {
  }

  /** Storing a bool and reading it back as a bool gives the same bool
      when the key has no override. */
  lemma SetSettingBoolRoundTrip(env: Env, addon: Addon, k: string, b: bool)
    requires Bound(env, addon) && k !in env.overrides
    ensures SetSettingBool(env, addon, k, VBool(b)).accepted
    ensures GetSettingBool(SetSettingBool(env, addon, k, VBool(b)).env, addon, k) == Ok(b)
  {
    var text := if b then "true" else "false";
    SetSettingThenGet(env, addon, k, VStr(text));
    assert VStr(text) != VStr("1");
  }

  /** Text stored through `setSettingString` reads back unchanged when the
      normaliser leaves text alone and the key has no override. */
  lemma SetSettingStringRoundTrip(env: Env, addon: Addon, k: string, s: string, toUnicode: Value -> Value)
    requires Bound(env, addon) && k !in env.overrides
    requires forall t :: toUnicode(VStr(t)) == VStr(t)
    ensures GetSettingString(SetSettingString(env, addon, k, VStr(s), toUnicode).env, addon, k) == Ok(VStr(s))
  {
    SetSettingThenGet(env, addon, k, VStr(s));
  }

  /** An accepted `setSettingInt` stores the normalised value in the
      addon's own settings, where `getSetting` finds it absent an override. */
  lemma SetSettingIntStores(env: Env, addon: Addon, k: string, value: Value, toUnicode: Value -> Value)
    requires Bound(env, addon) && k !in env.overrides
    requires IsInstanceInt(value)
    ensures GetSetting(SetSettingInt(env, addon, k, value, toUnicode).env, addon, k) == Ok(toUnicode(value))
  {
    SetSettingThenGet(env, addon, k, toUnicode(value));
  }

  /** Omitting the id is the same as passing the active plugin id. */
  lemma NewAddonDefault(env: Env)
    ensures NewAddon(env, None) == NewAddon(env, Some(env.pluginId))
  {
  }
}
