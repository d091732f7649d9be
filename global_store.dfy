// The plugin-wide settings store of `src/stores/global.ts`: the plugin's
// settings with a per-block configuration map whose "default" entry stands in
// for blocks that have none of their own.

module GlobalStore {
  import opened Wrappers
  import opened JsValues

  /** A block's configuration object. */
  type BlockConfig = map<string, Value>

  /**
   * The settings object: `blockConfigs` may be absent (the store starts with
   * `{}`), and every other settings key is kept in `others`.
   */
  datatype Settings = Settings(blockConfigs: Option<map<string, BlockConfig>>, others: map<string, Value>)

  /** The argument of `setBlockConfig`: a new configuration, or a function of the current one. */
  datatype ConfigUpdate =
    | Replace(config: BlockConfig)
    | Apply(update: BlockConfig -> BlockConfig)

  /** The configuration `setBlockConfig` stores, given the current one. */
  function Updated(cb: ConfigUpdate, current: BlockConfig): BlockConfig {
    match cb
    case Replace(c) => c
    case Apply(f) => f(current)
  }

  class PluginSettingsStore {
    var settings: Settings
    /** The configuration used when the settings have no `blockConfigs` at all. */
    const defaultBlockConfig: BlockConfig

    constructor (defaultBlockConfig: BlockConfig)
      ensures settings == Settings(None, map[])
      ensures this.defaultBlockConfig == defaultBlockConfig
    {
      settings := Settings(None, map[]);
      this.defaultBlockConfig := defaultBlockConfig;
    }

    /** `setSettings(cb)`: the settings become `cb` of the previous settings. */
    method SetSettings(cb: Settings -> Settings)
      modifies this
      ensures settings == cb(old(settings))
    {
      settings := cb(settings);
    }

    /**
     * `getBlockConfig(blockId)`: without `blockConfigs` the default block
     * configuration; otherwise the block's own entry, falling back to the
     * "default" entry, and `undefined` (None) when neither exists.
     */
    function GetBlockConfig(blockId: string): (r: Option<BlockConfig>)
      reads this
      ensures settings.blockConfigs.None? ==> r == Some(defaultBlockConfig)
      ensures settings.blockConfigs.Some? && blockId in settings.blockConfigs.value ==>
                r == Some(settings.blockConfigs.value[blockId])
      ensures settings.blockConfigs.Some? && blockId !in settings.blockConfigs.value ==>
                r == (if "default" in settings.blockConfigs.value then Some(settings.blockConfigs.value["default"]) else None)
      ensures r.None? <==> settings.blockConfigs.Some? && blockId !in settings.blockConfigs.value
                           && "default" !in settings.blockConfigs.value
    {
      match settings.blockConfigs
      case None => Some(defaultBlockConfig)
      case Some(configs) =>
        if blockId in configs then Some(configs[blockId])
        else if "default" in configs then Some(configs["default"])
        else None
    }

    /**
     * `setBlockConfig(id, cb)` as written: reading `blockConfigs[id]` when
     * `blockConfigs` is absent throws a TypeError inside the store update,
     * which then changes nothing. Otherwise entry `id` becomes the updated
     * configuration (starting from the default block configuration when the
     * block has none), and nothing else changes.
     */
    method SetBlockConfig(id: string, cb: ConfigUpdate) returns (thrown: bool)
      modifies this
      ensures thrown <==> old(settings).blockConfigs.None?
      ensures thrown ==> settings == old(settings)
      ensures !thrown ==>
                var configs := old(settings).blockConfigs.value;
                var current := if id in configs then configs[id] else defaultBlockConfig;
                settings == Settings(Some(configs[id := Updated(cb, current)]), old(settings).others)
      ensures !thrown ==> GetBlockConfig(id) == Some(Updated(cb, old(CurrentConfig(id))))
      ensures !thrown ==> forall other :: other != id && (id != "default" || other in old(settings).blockConfigs.value) ==>
                            GetBlockConfig(other) == old(GetBlockConfig(other))
    {
      if settings.blockConfigs.None? {
        return true;
      }
      var configs := settings.blockConfigs.value;
      var currentConfig := CurrentConfig(id);
      var newConfig := Updated(cb, currentConfig);
      settings := settings.(blockConfigs := Some(configs[id := newConfig]));
      thrown := false;
    }

    /** The configuration `setBlockConfig` starts from: the block's own entry, else the default block configuration. */
    function CurrentConfig(id: string): (r: BlockConfig)
      reads this
      ensures settings.blockConfigs.Some? && id in settings.blockConfigs.value ==> r == settings.blockConfigs.value[id]
      ensures !(settings.blockConfigs.Some? && id in settings.blockConfigs.value) ==> r == defaultBlockConfig
    {
      if settings.blockConfigs.Some? && id in settings.blockConfigs.value then settings.blockConfigs.value[id]
      else defaultBlockConfig
    }

    /**
     * `setBlockConfig` as evidently intended: an absent `blockConfigs` is
     * treated as empty, so the update always lands.
     */
    method SetBlockConfigCorrected(id: string, cb: ConfigUpdate)
      modifies this
      ensures var configs := old(settings).blockConfigs.GetOr(map[]);
              settings == Settings(Some(configs[id := Updated(cb, old(CurrentConfig(id)))]), old(settings).others)
      ensures GetBlockConfig(id) == Some(Updated(cb, old(CurrentConfig(id))))
      ensures forall other :: other != id && old(settings).blockConfigs.Some? && (id != "default" || other in old(settings).blockConfigs.value) ==>
                GetBlockConfig(other) == old(GetBlockConfig(other))
    {
      var configs := settings.blockConfigs.GetOr(map[]);
      var newConfig := Updated(cb, CurrentConfig(id));
      settings := settings.(blockConfigs := Some(configs[id := newConfig]));
    }
  }

  /**
   * On a fresh store, whose settings are `{}`, the as-written
   * `setBlockConfig` throws and stores nothing, while the corrected one
   * stores the configuration.
   */
  method SetBlockConfigOnFreshStore(config: BlockConfig) returns (thrown: bool, stored: Option<BlockConfig>)
    ensures thrown
    ensures stored == Some(config)
  {
    var asWritten := new PluginSettingsStore(map[]);
    thrown := asWritten.SetBlockConfig("block-1", Replace(config));
    assert asWritten.GetBlockConfig("block-1") == Some(map[]);
    var corrected := new PluginSettingsStore(map[]);
    corrected.SetBlockConfigCorrected("block-1", Replace(config));
    stored := corrected.GetBlockConfig("block-1");
  }
}
