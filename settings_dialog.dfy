/**
 * The form handlers of src/features/settings/components/settings-dialog.tsx.
 * The dialog's `editingConfig`, `editingId` and `showApiKey` state become
 * fields of a class, and so does the list of configurations it edits
 * through the settings context, which `Save` replaces with what
 * `addConfig` or `updateConfig` computes.
 */
module SettingsDialog {
  import opened Wrappers
  import opened SettingsTypes
  import opened ConfigStore

  /** A stored configuration as the form holds it: everything but the id. */
  function DraftOf(c: ModelConfig): (d: ConfigDraft)
    ensures NewConfig(d, c.id, k => k) == c
  {
    ConfigDraft(c.name, c.baseUrl, c.modelId, c.apiKey, c.customPrompt, c.isActive, c.rateLimit)
  }

  /** The form a preset opens: the preset's fields, no key, and active. */
  function PresetDraft(p: Preset): (d: ConfigDraft)
    ensures d.apiKey == "" && d.isActive && d.rateLimit == None
    ensures d.name == p.name && d.baseUrl == p.baseUrl && d.modelId == p.modelId
    ensures d.customPrompt == p.customPrompt
  {
    ConfigDraft(p.name, p.baseUrl, p.modelId, "", p.customPrompt, true, None)
  }

  /** Whether the save button is enabled: name, base URL, model id and key
      are all non-empty. */
  predicate CanSave(d: ConfigDraft)
  {
    d.name != "" && d.baseUrl != "" && d.modelId != "" && d.apiKey != ""
  }

  /** The form handed to `updateConfig` as its updates. A form opened by
      `handleEdit` still carries the id it was spread from, and a
      `rateLimit` left undefined is no key at all. */
  function EditPatch(d: ConfigDraft, id: string): (u: ConfigPatch)
    ensures u.id == Some(id) && u.apiKey == Some(d.apiKey) && u.isActive == Some(d.isActive)
    ensures u.rateLimit.Some? <==> d.rateLimit.Some?
  {
    ConfigPatch(Some(id), Some(d.name), Some(d.baseUrl), Some(d.modelId), Some(d.apiKey),
                Some(d.customPrompt), Some(d.isActive),
                if d.rateLimit.Some? then Some(d.rateLimit) else None)
  }

  /** Saving a configuration's form unchanged, after its key was decoded
      for editing, leaves the list as it was whenever encoding gives the
      stored key back: the key is re-encoded to what was stored and the
      other configurations are already inactive when it is active. */
  lemma UnchangedEditKeepsConfigs(cs: seq<ModelConfig>, k: nat, encode: string -> string, decode: string -> string)
    requires AtMostOneActive(cs) && UniqueIds(cs) && k < |cs|
    requires encode(decode(cs[k].apiKey)) == cs[k].apiKey && decode(cs[k].apiKey) != ""
    ensures UpdateConfig(cs, cs[k].id, EditPatch(DraftOf(GetDecodedConfig(cs[k], decode)), cs[k].id), encode) == cs
  {
    var c := cs[k];
    var u := EditPatch(DraftOf(GetDecodedConfig(c, decode)), c.id);
    var r := UpdateConfig(cs, c.id, u, encode);
    forall i | 0 <= i < |cs|
      ensures r[i] == cs[i]
    {
      if i == k {
        assert r[i] == Merge(c, u, encode);
      } else {
        assert cs[i].id != c.id;
        if c.isActive && i < k {
          assert !cs[i].isActive;
        } else if c.isActive {
          assert !cs[i].isActive;
        }
      }
    }
  }

  /** An update whose id is the one it targets leaves every id in place. */
  lemma UpdateKeepsIds(cs: seq<ModelConfig>, id: string, u: ConfigPatch, encode: string -> string)
    requires u.id == Some(id)
    ensures Ids(UpdateConfig(cs, id, u, encode)) == Ids(cs)
  {
    var r := UpdateConfig(cs, id, u, encode);
    assert forall i :: 0 <= i < |cs| ==> r[i].id == cs[i].id;
  }

  /** Appending a configuration under a fresh id keeps the ids unique. */
  lemma AddKeepsUnique(cs: seq<ModelConfig>, d: ConfigDraft, id: string, encode: string -> string)
    requires UniqueIds(cs) && id !in Ids(cs)
    ensures UniqueIds(AddConfig(cs, d, id, encode))
  {
    var r := AddConfig(cs, d, id, encode);
    forall i, j | 0 <= i < j < |r|
      ensures r[i].id != r[j].id
    {
      assert Ids(r)[i] == r[i].id && Ids(r)[j] == r[j].id;
      if j == |cs| {
        assert Ids(cs)[i] == r[i].id;
      } else {
        assert Ids(cs)[i] == r[i].id && Ids(cs)[j] == r[j].id;
      }
    }
  }

  class SettingsForm {
    var editingConfig: Option<ConfigDraft>
    var editingId: Option<string>
    var showApiKey: bool
    /** The configurations of the settings context. */
    var configs: seq<ModelConfig>

    /** The list keeps at most one active configuration and unique ids. */
    predicate Valid()
      reads this
    {
      AtMostOneActive(configs) && UniqueIds(configs)
    }

    constructor(configs: seq<ModelConfig>)
      ensures editingConfig == None && editingId == None && !showApiKey
      ensures this.configs == configs
    {
      editingConfig := None;
      editingId := None;
      showApiKey := false;
      this.configs := configs;
    }

    /** `handleAddNew`: a blank form for a new configuration. */
    method AddNew()
      modifies this
      ensures editingConfig == Some(CreateBlankConfig()) && editingId == None && !showApiKey
      ensures configs == old(configs)
    {
      editingConfig := Some(CreateBlankConfig());
      editingId := None;
      showApiKey := false;
    }

    /** `handleEdit(config)`: the configuration with its key decoded, and
        its id remembered. */
    method Edit(config: ModelConfig, decode: string -> string)
      modifies this
      ensures editingConfig == Some(DraftOf(GetDecodedConfig(config, decode)))
      ensures editingConfig.value.apiKey == decode(config.apiKey)
      ensures editingId == Some(config.id) && !showApiKey
      ensures configs == old(configs)
    {
      editingConfig := Some(DraftOf(GetDecodedConfig(config, decode)));
      editingId := Some(config.id);
      showApiKey := false;
    }

    /** `handlePreset(preset)`: a new, active configuration from a preset. */
    method ApplyPreset(preset: Preset)
      modifies this
      ensures editingConfig == Some(PresetDraft(preset)) && editingId == None && !showApiKey
      ensures configs == old(configs)
    {
      editingConfig := Some(PresetDraft(preset));
      editingId := None;
      showApiKey := false;
    }

    /** `handleSave()`: nothing unless the form is open and its four
        required fields are filled; then the configuration being edited is
        updated, or a new one is added under `newId`, and the form closes.
        An id that is the empty string counts as none. */
    method Save(newId: string, encode: string -> string) returns (saved: bool)
      modifies this
      ensures saved <==> old(editingConfig).Some? && CanSave(old(editingConfig).value)
      ensures !saved ==> (configs == old(configs) && editingConfig == old(editingConfig)
                          && editingId == old(editingId) && showApiKey == old(showApiKey))
      ensures saved ==> editingConfig == None && editingId == None && showApiKey == old(showApiKey)
      ensures saved && old(editingId).Some? && old(editingId).value != "" ==>
        configs == UpdateConfig(old(configs), old(editingId).value,
                                EditPatch(old(editingConfig).value, old(editingId).value), encode)
      ensures saved && !(old(editingId).Some? && old(editingId).value != "") ==>
        configs == AddConfig(old(configs), old(editingConfig).value, newId, encode)
      ensures old(Valid()) && (saved && !(old(editingId).Some? && old(editingId).value != "") ==> newId !in old(Ids(configs)))
        ==> Valid()
    {
      if editingConfig.None? || !CanSave(editingConfig.value) {
        return false;
      }
      var draft := editingConfig.value;
      if editingId.Some? && editingId.value != "" {
        var id := editingId.value;
        ghost var before := configs;
        configs := UpdateConfig(configs, id, EditPatch(draft, id), encode);
        if AtMostOneActive(before) && UniqueIds(before) {
          UpdateConfigActive(before, id, EditPatch(draft, id), encode);
          UpdateKeepsIds(before, id, EditPatch(draft, id), encode);
          assert forall i :: 0 <= i < |configs| ==> configs[i].id == Ids(configs)[i] == Ids(before)[i];
        }
      } else {
        ghost var before := configs;
        configs := AddConfig(configs, draft, newId, encode);
        if AtMostOneActive(before) && UniqueIds(before) && newId !in Ids(before) {
          AddConfigActive(before, draft, newId, encode);
          AddKeepsUnique(before, draft, newId, encode);
        }
      }
      editingConfig := None;
      editingId := None;
      return true;
    }

    /** `handleCancel()`: the form closes and nothing is stored. */
    method Cancel()
      modifies this
      ensures editingConfig == None && editingId == None
      ensures configs == old(configs) && showApiKey == old(showApiKey)
    {
      editingConfig := None;
      editingId := None;
    }
  }
}
