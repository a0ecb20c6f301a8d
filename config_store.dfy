/**
 * The model-configuration store of src/features/settings/context.tsx: the
 * list of provider configurations, the updaters the provider hands out
 * (`addConfig`, `updateConfig`, `deleteConfig`, `setActiveConfig`), the
 * derived `activeConfig` and `hasAnyConfig`, and the shape check applied to
 * what was persisted.
 *
 * Each updater is a function from the previous list to the next one, as the
 * `setConfigs(prev => …)` callbacks are. `crypto.randomUUID()` is the `id`
 * parameter and the base64 pair `encodeApiKey`/`decodeApiKey` are the
 * function parameters `encode` and `decode`.
 */
module ConfigStore {
  import opened Wrappers
  import opened SettingsTypes

  const STORAGE_KEY: string := "extractor_model_configs"

  /** What `/api/config` reports about the server's own configuration. */
  datatype EnvConfig = EnvConfig(
    baseUrl: string,
    modelId: string,
    hasApiKey: bool,
    isConfigured: bool,
    rateLimit: Option<RateLimitConfig>)

  /** A parsed JSON value. */
  datatype Json =
    | JNull
    | JBool(b: bool)
    | JNumber(n: int)
    | JString(s: string)
    | JArray(items: seq<Json>)
    | JObject(fields: map<string, Json>)

  /** `typeof item === "object" && item !== null`: objects and arrays. */
  predicate IsObject(item: Json)
  {
    item.JObject? || item.JArray?
  }

  /** `key in item` for the non-index keys asked about; an array has none. */
  predicate HasKey(item: Json, key: string)
  {
    item.JObject? && key in item.fields
  }

  /** The test `isModelConfigArray` applies to each element. */
  predicate IsConfigShaped(item: Json)
  {
    && IsObject(item)
    && HasKey(item, "id") && HasKey(item, "name") && HasKey(item, "baseUrl")
    && HasKey(item, "modelId") && HasKey(item, "apiKey")
  }

  /** `items.every(isConfigShaped)` */
  function EveryShaped(items: seq<Json>): (ok: bool)
    ensures ok <==> forall i :: 0 <= i < |items| ==> IsConfigShaped(items[i])
  {
    if items == [] then true else IsConfigShaped(items[0]) && EveryShaped(items[1..])
  }

  /** `isModelConfigArray(data)`: an array whose every element is an object
      with the keys id, name, baseUrl, modelId and apiKey. The values under
      those keys are not looked at. */
  function IsModelConfigArray(data: Json): (ok: bool)
    ensures ok ==> data.JArray?
  {
    data.JArray? && EveryShaped(data.items)
  }

  /** `loadConfigs()`: the persisted array when there is a window, a
      non-empty stored text that parses, and the parse passes the shape
      check; `[]` in every other case. `parse` is `JSON.parse`, `None` where
      it throws. */
  function LoadConfigs(hasWindow: bool, stored: Option<string>, parse: string -> Option<Json>): (r: seq<Json>)
    ensures forall i :: 0 <= i < |r| ==> IsConfigShaped(r[i])
    ensures r != [] ==> hasWindow && stored.Some? && stored.value != ""
  {
    if !hasWindow then []
    else if stored.None? || stored.value == "" then []
    else
      match parse(stored.value)
      case None => []
      case Some(parsed) => if IsModelConfigArray(parsed) then parsed.items else []
  }

  /** A stored array that passes the check is loaded as it is. */
  lemma LoadAccepts(stored: string, parse: string -> Option<Json>, items: seq<Json>)
    requires stored != "" && parse(stored) == Some(JArray(items))
    requires forall i :: 0 <= i < |items| ==> IsConfigShaped(items[i])
    ensures LoadConfigs(true, Some(stored), parse) == items
  {
  }

  /** One bad element throws the whole list away. */
  lemma LoadRejects(stored: string, parse: string -> Option<Json>, items: seq<Json>, k: nat)
    requires parse(stored) == Some(JArray(items))
    requires k < |items| && !IsConfigShaped(items[k])
    ensures LoadConfigs(true, Some(stored), parse) == []
  {
  }

  /** At most one configuration is active. */
  predicate AtMostOneActive(cs: seq<ModelConfig>)
  {
    forall i, j :: 0 <= i < j < |cs| && cs[i].isActive ==> !cs[j].isActive
  }

  predicate UniqueIds(cs: seq<ModelConfig>)
  {
    forall i, j :: 0 <= i < j < |cs| ==> cs[i].id != cs[j].id
  }

  function Ids(cs: seq<ModelConfig>): (r: seq<string>)
    ensures |r| == |cs| && forall i :: 0 <= i < |cs| ==> r[i] == cs[i].id
  {
    seq(|cs|, i requires 0 <= i < |cs| => cs[i].id)
  }

  /** The index of `configs.find(c => c.isActive)`. */
  function ActiveIndex(cs: seq<ModelConfig>): (k: Option<nat>)
    ensures k.Some? ==> k.value < |cs| && cs[k.value].isActive
    ensures k.Some? ==> forall i :: 0 <= i < k.value ==> !cs[i].isActive
    ensures k.None? ==> forall i :: 0 <= i < |cs| ==> !cs[i].isActive
  {
    if cs == [] then None
    else if cs[0].isActive then Some(0)
    else
      match ActiveIndex(cs[1..])
      case None => None
      case Some(k) => Some(k + 1)
  }

  /** `activeConfig`: the first active configuration, if any. */
  function ActiveConfig(cs: seq<ModelConfig>): (a: Option<ModelConfig>)
    ensures a.Some? <==> exists i :: 0 <= i < |cs| && cs[i].isActive
    ensures a.Some? ==> a.value.isActive && a.value in cs
  {
    match ActiveIndex(cs)
    case None => None
    case Some(k) => Some(cs[k])
  }

  /** `hasAnyConfig`: an active configuration, or a server configuration
      that is complete. */
  function HasAnyConfig(cs: seq<ModelConfig>, env: Option<EnvConfig>): (b: bool)
  {
    ActiveConfig(cs).Some? || (env.Some? && env.value.isConfigured)
  }

  lemma HasAnyConfigSpec(cs: seq<ModelConfig>, env: Option<EnvConfig>)
    ensures HasAnyConfig(cs, env) <==>
      (exists i :: 0 <= i < |cs| && cs[i].isActive) || (env.Some? && env.value.isConfigured)
  {
  }

  /** `c` with `isActive` cleared. */
  function Deactivate(c: ModelConfig): ModelConfig
  {
    c.(isActive := false)
  }

  /** `prev.map(c => ({ ...c, isActive: false }))` */
  function DeactivateAll(cs: seq<ModelConfig>): (r: seq<ModelConfig>)
    ensures |r| == |cs| && forall i :: 0 <= i < |cs| ==> r[i] == Deactivate(cs[i])
  {
    seq(|cs|, i requires 0 <= i < |cs| => Deactivate(cs[i]))
  }

  /** The stored form of a new configuration: the draft with an id and its
      key encoded. */
  function NewConfig(draft: ConfigDraft, id: string, encode: string -> string): ModelConfig
  {
    ModelConfig(id, draft.name, draft.baseUrl, draft.modelId, encode(draft.apiKey),
                draft.customPrompt, draft.isActive, draft.rateLimit)
  }

  /** `addConfig(draft)`: appended at the end; when it is active or the list
      was empty, it is appended active and every other one is deactivated. */
  function AddConfig(prev: seq<ModelConfig>, draft: ConfigDraft, id: string, encode: string -> string): (r: seq<ModelConfig>)
    ensures |r| == |prev| + 1
    ensures forall i :: 0 <= i < |prev| ==>
      r[i] == (if draft.isActive || prev == [] then prev[i].(isActive := false) else prev[i])
    ensures var c := r[|prev|];
      && c.id == id && c.name == draft.name && c.baseUrl == draft.baseUrl && c.modelId == draft.modelId
      && c.apiKey == encode(draft.apiKey) && c.customPrompt == draft.customPrompt
      && c.rateLimit == draft.rateLimit && c.isActive == (draft.isActive || prev == [])
    ensures Ids(r) == Ids(prev) + [id]
  {
    var c := NewConfig(draft, id, encode);
    if c.isActive || |prev| == 0 then DeactivateAll(prev) + [c.(isActive := true)]
    else prev + [c]
  }

  /** After `addConfig`, the new configuration is the active one when it was
      asked to be or when it is the first; otherwise the active one is
      unchanged. At most one stays active. */
  lemma AddConfigActive(prev: seq<ModelConfig>, draft: ConfigDraft, id: string, encode: string -> string)
    requires AtMostOneActive(prev)
    ensures AtMostOneActive(AddConfig(prev, draft, id, encode))
    ensures draft.isActive || prev == [] ==>
      ActiveConfig(AddConfig(prev, draft, id, encode)) == Some(NewConfig(draft, id, encode).(isActive := true))
    ensures !(draft.isActive || prev == []) ==>
      ActiveConfig(AddConfig(prev, draft, id, encode)) == ActiveConfig(prev)
  {
    var r := AddConfig(prev, draft, id, encode);
    if draft.isActive || prev == [] {
      assert ActiveIndex(r) == Some(|prev|) by {
        ActiveIndexIs(r, |prev|);
      }
    } else {
      assert r == prev + [NewConfig(draft, id, encode)];
      ActiveIndexAppend(prev, NewConfig(draft, id, encode));
    }
  }

  /** The only active configuration is the one found. */
  lemma ActiveIndexIs(cs: seq<ModelConfig>, k: nat)
    requires k < |cs| && cs[k].isActive
    requires forall i :: 0 <= i < |cs| && i != k ==> !cs[i].isActive
    ensures ActiveIndex(cs) == Some(k)
  {
  }

  /** Appending an inactive configuration leaves the one found in place. */
  lemma ActiveIndexAppend(cs: seq<ModelConfig>, c: ModelConfig)
    requires !c.isActive
    ensures ActiveIndex(cs + [c]) == ActiveIndex(cs)
  {
    var r := cs + [c];
    match ActiveIndex(cs)
    case None =>
      assert forall i :: 0 <= i < |r| ==> !r[i].isActive by {
        assert forall i :: 0 <= i < |cs| ==> r[i] == cs[i];
      }
    case Some(k) =>
      assert forall i :: 0 <= i <= k ==> r[i] == cs[i];
      ActiveIndexFirst(r, k);
  }

  /** The first active configuration is found. */
  lemma ActiveIndexFirst(cs: seq<ModelConfig>, k: nat)
    requires k < |cs| && cs[k].isActive
    requires forall i :: 0 <= i < k ==> !cs[i].isActive
    ensures ActiveIndex(cs) == Some(k)
  {
    match ActiveIndex(cs)
    case None =>
    case Some(j) =>
      assert !(j < k) && !(k < j);
  }

  /** The fields an update may carry (`Partial<ModelConfig>`); `None` is a
      field the update leaves out. */
  datatype ConfigPatch = ConfigPatch(
    id: Option<string>,
    name: Option<string>,
    baseUrl: Option<string>,
    modelId: Option<string>,
    apiKey: Option<string>,
    customPrompt: Option<string>,
    isActive: Option<bool>,
    rateLimit: Option<Option<RateLimitConfig>>)

  /** `{ ...c, ...updates }`, with the key re-encoded when the update brings
      a non-empty key other than the stored one. */
  function Merge(c: ModelConfig, u: ConfigPatch, encode: string -> string): (m: ModelConfig)
    ensures u.apiKey.Some? && u.apiKey.value != "" && u.apiKey.value != c.apiKey ==> m.apiKey == encode(u.apiKey.value)
    ensures u.apiKey.Some? && (u.apiKey.value == "" || u.apiKey.value == c.apiKey) ==> m.apiKey == u.apiKey.value
    ensures u.apiKey.None? ==> m.apiKey == c.apiKey
    ensures m.isActive == u.isActive.GetOr(c.isActive)
  {
    var merged := ModelConfig(
      u.id.GetOr(c.id), u.name.GetOr(c.name), u.baseUrl.GetOr(c.baseUrl),
      u.modelId.GetOr(c.modelId), u.apiKey.GetOr(c.apiKey),
      u.customPrompt.GetOr(c.customPrompt), u.isActive.GetOr(c.isActive),
      u.rateLimit.GetOr(c.rateLimit));
    if u.apiKey.Some? && u.apiKey.value != "" && u.apiKey.value != c.apiKey then
      merged.(apiKey := encode(u.apiKey.value))
    else merged
  }

  /** One element of `updateConfig(id, updates)`. */
  function UpdateOne(c: ModelConfig, id: string, u: ConfigPatch, encode: string -> string): ModelConfig
  {
    if c.id != id then
      (if u.isActive == Some(true) then Deactivate(c) else c)
    else Merge(c, u, encode)
  }

  /** `updateConfig(id, updates)`: the update is merged into the
      configurations with that id; the others change only by being
      deactivated when the update activates. */
  function UpdateConfig(prev: seq<ModelConfig>, id: string, u: ConfigPatch, encode: string -> string): (r: seq<ModelConfig>)
    ensures |r| == |prev|
    ensures forall i :: 0 <= i < |prev| && prev[i].id != id ==>
      r[i] == (if u.isActive == Some(true) then Deactivate(prev[i]) else prev[i])
    ensures forall i :: 0 <= i < |prev| && prev[i].id == id ==> r[i] == Merge(prev[i], u, encode)
  {
    seq(|prev|, i requires 0 <= i < |prev| => UpdateOne(prev[i], id, u, encode))
  }

  /** With unique ids, `updateConfig` keeps at most one configuration
      active; an update that activates an existing configuration makes it
      the active one. */
  lemma UpdateConfigActive(prev: seq<ModelConfig>, id: string, u: ConfigPatch, encode: string -> string)
    requires AtMostOneActive(prev) && UniqueIds(prev)
    ensures AtMostOneActive(UpdateConfig(prev, id, u, encode))
    ensures forall k :: 0 <= k < |prev| && prev[k].id == id && u.isActive == Some(true) ==>
      ActiveConfig(UpdateConfig(prev, id, u, encode)) == Some(Merge(prev[k], u, encode))
  {
    var r := UpdateConfig(prev, id, u, encode);
    forall i, j | 0 <= i < j < |r| && r[i].isActive
      ensures !r[j].isActive
    {
      if u.isActive == Some(true) {
        assert prev[i].id == id;
        assert prev[j].id != id;
      } else {
        assert prev[i].isActive;
      }
    }
    forall k | 0 <= k < |prev| && prev[k].id == id && u.isActive == Some(true)
      ensures ActiveConfig(r) == Some(Merge(prev[k], u, encode))
    {
      forall i | 0 <= i < |r| && i != k ensures !r[i].isActive {
        assert prev[i].id != id;
      }
      ActiveIndexIs(r, k);
    }
  }

  /** `prev.filter(c => c.id !== id)` */
  function Without(cs: seq<ModelConfig>, id: string): (r: seq<ModelConfig>)
    ensures |r| <= |cs|
  {
    if cs == [] then []
    else if cs[0].id == id then Without(cs[1..], id)
    else [cs[0]] + Without(cs[1..], id)
  }

  /** The configurations kept are exactly those with another id. */
  lemma {:induction false} WithoutMembers(cs: seq<ModelConfig>, id: string)
    ensures forall c :: c in Without(cs, id) <==> c in cs && c.id != id
  {
    if cs != [] {
      WithoutMembers(cs[1..], id);
      assert cs == [cs[0]] + cs[1..];
    }
  }

  /** Filtering a concatenation filters each side. With `WithoutOne` this
      fixes the order and the multiplicity of what `Without` keeps. */
  lemma {:induction false} WithoutConcat(a: seq<ModelConfig>, b: seq<ModelConfig>, id: string)
    ensures Without(a + b, id) == Without(a, id) + Without(b, id)
  {
    if a == [] {
      assert a + b == b;
    } else {
      WithoutConcat(a[1..], b, id);
      WithoutConsStep(a[0], a[1..] + b, a[1..], id, Without(b, id), a + b, a);
    }
  }

  /** Putting one configuration in front of two lists whose filtered forms
      agree up to a common tail keeps them agreeing. */
  lemma WithoutConsStep(c: ModelConfig, t: seq<ModelConfig>, a: seq<ModelConfig>, id: string, rb: seq<ModelConfig>,
                         ct: seq<ModelConfig>, ca: seq<ModelConfig>)
    requires ct == [c] + t && ca == [c] + a
    requires Without(t, id) == Without(a, id) + rb
    ensures Without(ct, id) == Without(ca, id) + rb
  {
    var h := if c.id == id then [] else [c];
    calc {
      Without(ct, id);
      Without([c] + t, id);
      { WithoutCons(c, t, id); }
      h + Without(t, id);
      h + (Without(a, id) + rb);
      { assert h + (Without(a, id) + rb) == (h + Without(a, id)) + rb; }
      (h + Without(a, id)) + rb;
      { WithoutCons(c, a, id); }
      Without([c] + a, id) + rb;
      Without(ca, id) + rb;
    }
  }

  /** `Without` of a list with one more configuration in front. */
  lemma WithoutCons(c: ModelConfig, t: seq<ModelConfig>, id: string)
    ensures Without([c] + t, id) == (if c.id == id then [] else [c]) + Without(t, id)
  {
    assert ([c] + t)[0] == c && ([c] + t)[1..] == t;
  }

  /** A single configuration is kept exactly when its id differs. */
  lemma WithoutOne(c: ModelConfig, id: string)
    ensures Without([c], id) == if c.id == id then [] else [c]
  {
    assert [c][1..] == [];
  }

  /** An id that no configuration carries removes nothing. */
  lemma {:induction false} WithoutUnknownId(cs: seq<ModelConfig>, id: string)
    requires id !in Ids(cs)
    ensures Without(cs, id) == cs
  {
    if cs != [] {
      assert Ids(cs[1..]) == Ids(cs)[1..];
      WithoutUnknownId(cs[1..], id);
      assert cs == [cs[0]] + cs[1..];
    }
  }

  /** `deleteConfig(id)`: the configurations with that id go; when some
      remain and none of them is active, the first becomes active. */
  function DeleteConfig(prev: seq<ModelConfig>, id: string): (r: seq<ModelConfig>)
    ensures |r| == |Without(prev, id)|
    ensures forall i :: 0 <= i < |r| ==> r[i].id != id
    ensures forall i :: 0 < i < |r| ==> r[i] == Without(prev, id)[i]
    ensures r != [] ==> r[0].(isActive := Without(prev, id)[0].isActive) == Without(prev, id)[0]
    ensures r != [] ==>
      (r[0].isActive <==> Without(prev, id)[0].isActive || forall i :: 0 <= i < |r| ==> !Without(prev, id)[i].isActive)
  {
    WithoutMembers(prev, id);
    var remaining := Without(prev, id);
    if |remaining| > 0 && ActiveConfig(remaining).None? then
      remaining[0 := remaining[0].(isActive := true)]
    else remaining
  }

  /** Filtering keeps at most one configuration active. */
  lemma {:induction false} WithoutKeepsAtMostOne(cs: seq<ModelConfig>, id: string)
    requires AtMostOneActive(cs)
    ensures AtMostOneActive(Without(cs, id))
  {
    if cs != [] {
      WithoutKeepsAtMostOne(cs[1..], id);
      WithoutMembers(cs[1..], id);
      var rest := Without(cs[1..], id);
      if cs[0].id != id && cs[0].isActive {
        forall j | 0 <= j < |rest| ensures !rest[j].isActive {
          assert rest[j] in cs[1..];
        }
      }
    }
  }

  /** After `deleteConfig`, at most one configuration is active, and exactly
      one is whenever any remain. */
  lemma DeleteConfigActive(prev: seq<ModelConfig>, id: string)
    requires AtMostOneActive(prev)
    ensures AtMostOneActive(DeleteConfig(prev, id))
    ensures DeleteConfig(prev, id) != [] ==> ActiveConfig(DeleteConfig(prev, id)).Some?
  {
    var remaining := Without(prev, id);
    WithoutKeepsAtMostOne(prev, id);
    var r := DeleteConfig(prev, id);
    if |remaining| > 0 && ActiveConfig(remaining).None? {
      forall i | 0 < i < |r| ensures !r[i].isActive {
        assert r[i] == remaining[i];
      }
      assert r[0].isActive;
    }
  }

  /** Deleting a configuration other than the active one changes nothing
      else: the list is only filtered and the same configuration stays
      active. */
  lemma DeleteInactiveKeepsActive(prev: seq<ModelConfig>, id: string)
    requires AtMostOneActive(prev)
    requires ActiveConfig(prev).Some? && ActiveConfig(prev).value.id != id
    ensures DeleteConfig(prev, id) == Without(prev, id)
    ensures ActiveConfig(DeleteConfig(prev, id)) == ActiveConfig(prev)
  {
    var a := ActiveConfig(prev).value;
    WithoutMembers(prev, id);
    WithoutKeepsAtMostOne(prev, id);
    OnlyActive(Without(prev, id), a);
  }

  /** Deleting the active configuration makes the first one left active,
      with its other fields unchanged. */
  lemma DeleteActivePromotesFirst(prev: seq<ModelConfig>, id: string)
    requires AtMostOneActive(prev)
    requires ActiveConfig(prev).Some? && ActiveConfig(prev).value.id == id
    requires Without(prev, id) != []
    ensures ActiveConfig(DeleteConfig(prev, id)) == Some(Without(prev, id)[0].(isActive := true))
  {
    var w := Without(prev, id);
    WithoutMembers(prev, id);
    forall i | 0 <= i < |w| ensures !w[i].isActive {
      if w[i].isActive {
        OnlyActive(prev, w[i]);
      }
    }
    ActiveIndexFirst(DeleteConfig(prev, id), 0);
  }

  /** With at most one active, an active member is the one found. */
  lemma OnlyActive(cs: seq<ModelConfig>, x: ModelConfig)
    requires AtMostOneActive(cs) && x in cs && x.isActive
    ensures ActiveConfig(cs) == Some(x)
  {
    var m :| 0 <= m < |cs| && cs[m] == x;
    ActiveIndexFirst(cs, m);
  }

  /** `setActiveConfig(id)`: exactly the configurations with that id are
      active. */
  function SetActiveConfig(prev: seq<ModelConfig>, id: string): (r: seq<ModelConfig>)
    ensures |r| == |prev|
    ensures forall i :: 0 <= i < |r| ==> r[i] == prev[i].(isActive := prev[i].id == id)
  {
    seq(|prev|, i requires 0 <= i < |prev| => prev[i].(isActive := prev[i].id == id))
  }

  /** With unique ids, `setActiveConfig` leaves at most one active, and one
      exactly when the id is known. */
  lemma SetActiveConfigActive(prev: seq<ModelConfig>, id: string)
    requires UniqueIds(prev)
    ensures AtMostOneActive(SetActiveConfig(prev, id))
    ensures ActiveConfig(SetActiveConfig(prev, id)).Some? <==> id in Ids(prev)
  {
    var r := SetActiveConfig(prev, id);
    if id in Ids(prev) {
      var k :| 0 <= k < |prev| && Ids(prev)[k] == id;
      assert r[k].isActive;
    }
  }

  /** `createBlankConfig()` */
  function CreateBlankConfig(): (d: ConfigDraft)
    ensures d.customPrompt == DEFAULT_EXTRACT_PROMPT && !d.isActive
    ensures d.name == d.baseUrl == d.modelId == d.apiKey == ""
  {
    ConfigDraft("", "", "", "", DEFAULT_EXTRACT_PROMPT, false, None)
  }

  /** `getDecodedConfig(config)`: the same configuration with its key decoded. */
  function GetDecodedConfig(c: ModelConfig, decode: string -> string): (d: ModelConfig)
    ensures d.apiKey == decode(c.apiKey) && d.(apiKey := c.apiKey) == c
  {
    c.(apiKey := decode(c.apiKey))
  }

  /** Decoding what `addConfig` stored gives back the key that was typed in,
      whenever `decode` undoes `encode`. */
  lemma StoredKeyDecodes(prev: seq<ModelConfig>, draft: ConfigDraft, id: string,
                         encode: string -> string, decode: string -> string)
    requires forall k :: decode(encode(k)) == k
    ensures var r := AddConfig(prev, draft, id, encode);
      GetDecodedConfig(r[|r| - 1], decode).apiKey == draft.apiKey
  {
  }
}
