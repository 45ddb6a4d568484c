/** The network registry: a fixed table of Layer-2 networks whose RPC
    endpoints can be overridden through the process environment. */
module Networks {
  import opened Wrappers
  import opened Dicts
  import opened Text

  /** An immutable network configuration. */
  datatype NetworkConfig = NetworkConfig(
    name: string,
    rpcUrl: string,
    chainId: int,
    nativeSymbol: string)

  /** The built-in networks, in their iteration order. */
  const DefaultNetworks: Dict<NetworkConfig> := [
    ("arbitrum", NetworkConfig("arbitrum", "https://arb1.arbitrum.io/rpc", 42161, "ETH")),
    ("optimism", NetworkConfig("optimism", "https://mainnet.optimism.io", 10, "ETH")),
    ("base", NetworkConfig("base", "https://mainnet.base.org", 8453, "ETH"))
  ]

  /** The environment variable that overrides a network's endpoint. */
  function RpcEnvVar(name: string): string
  {
    Upper(name) + "_RPC_URL"
  }

  /** The override in effect for a network: the variable's value when it is
      set to a non-empty string; an empty value counts as unset. */
  function RpcOverride(env: map<string, string>, name: string): (url: Option<string>)
    ensures url.Some? <==> RpcEnvVar(name) in env && env[RpcEnvVar(name)] != ""
    ensures url.Some? ==> url.value == env[RpcEnvVar(name)]
  {
    var key := RpcEnvVar(name);
    if key in env && env[key] != "" then Some(env[key]) else None
  }

  /** The configuration registered under `name`, with its override applied. */
  function Configure(name: string, cfg: NetworkConfig, env: map<string, string>): (c: NetworkConfig)
    ensures c.name == cfg.name && c.chainId == cfg.chainId && c.nativeSymbol == cfg.nativeSymbol
    ensures c.rpcUrl == (match RpcOverride(env, name) case Some(url) => url case None => cfg.rpcUrl)
  {
    match RpcOverride(env, name)
    case Some(url) => NetworkConfig(cfg.name, url, cfg.chainId, cfg.nativeSymbol)
    case None => cfg
  }

  /** The registry the program sees under environment `env`. */
  function Registry(env: map<string, string>): (r: Dict<NetworkConfig>)
    ensures |r| == |DefaultNetworks|
    ensures forall i | 0 <= i < |r| ::
      r[i] == (DefaultNetworks[i].0, Configure(DefaultNetworks[i].0, DefaultNetworks[i].1, env))
  {
    seq(|DefaultNetworks|, i requires 0 <= i < |DefaultNetworks| =>
      (DefaultNetworks[i].0, Configure(DefaultNetworks[i].0, DefaultNetworks[i].1, env)))
  }

  /** Builds a fresh registry from the defaults, replacing only the endpoint
      of each network whose override variable is set and non-empty. */
  method GetNetworks(env: map<string, string>) returns (networks: Dict<NetworkConfig>)
    ensures networks == Registry(env)
    ensures Keys(networks) == Keys(DefaultNetworks) && DistinctKeys(networks)
    ensures forall i | 0 <= i < |networks| ::
      && networks[i].1.name == DefaultNetworks[i].1.name
      && networks[i].1.chainId == DefaultNetworks[i].1.chainId
      && networks[i].1.nativeSymbol == DefaultNetworks[i].1.nativeSymbol
    ensures forall i | 0 <= i < |networks| ::
      var key := RpcEnvVar(DefaultNetworks[i].0);
      networks[i].1.rpcUrl ==
        if key in env && env[key] != "" then env[key] else DefaultNetworks[i].1.rpcUrl
  {
    DefaultKeysDistinct();
    networks := [];
    for i := 0 to |DefaultNetworks|
      invariant networks == Registry(env)[..i]
      invariant Keys(networks) == Keys(DefaultNetworks)[..i]
      invariant DistinctKeys(networks)
    {
      var (name, cfg) := DefaultNetworks[i];
      var envVar := RpcEnvVar(name);
      var rpcOverride := if envVar in env then Some(env[envVar]) else None;
      var entry := cfg;
      if rpcOverride.Some? && rpcOverride.value != "" {
        entry := NetworkConfig(cfg.name, rpcOverride.value, cfg.chainId, cfg.nativeSymbol);
      }
      AppendFresh(networks, i, name);
      networks := Put(networks, name, entry);
      assert Registry(env)[..i + 1] == Registry(env)[..i] + [Registry(env)[i]];
    }
    assert Registry(env)[..|DefaultNetworks|] == Registry(env);
    assert Keys(DefaultNetworks)[..|DefaultNetworks|] == Keys(DefaultNetworks);
    RegistryShape(env);
  }

  /** The loop of GetNetworks only ever inserts a key it has not seen. */
  lemma AppendFresh(networks: Dict<NetworkConfig>, i: nat, name: string)
    requires i < |DefaultNetworks| && name == DefaultNetworks[i].0
    requires Keys(networks) == Keys(DefaultNetworks)[..i]
    ensures name !in Keys(networks)
    ensures Keys(networks + [(name, DefaultNetworks[i].1)]) == Keys(DefaultNetworks)[..i + 1]
  {
    DefaultKeysDistinct();
  }

  /** Only the endpoint can differ from the default table. */
  lemma RegistryShape(env: map<string, string>)
    ensures Keys(Registry(env)) == Keys(DefaultNetworks)
    ensures forall i | 0 <= i < |DefaultNetworks| ::
      && Registry(env)[i].1.name == DefaultNetworks[i].1.name
      && Registry(env)[i].1.chainId == DefaultNetworks[i].1.chainId
      && Registry(env)[i].1.nativeSymbol == DefaultNetworks[i].1.nativeSymbol
    ensures forall i | 0 <= i < |DefaultNetworks| ::
      var key := RpcEnvVar(DefaultNetworks[i].0);
      Registry(env)[i].1.rpcUrl ==
        if key in env && env[key] != "" then env[key] else DefaultNetworks[i].1.rpcUrl
  {
  }

  /** The default table: three networks, all paying fees in ETH. */
  lemma DefaultTable()
    ensures Keys(DefaultNetworks) == ["arbitrum", "optimism", "base"]
    ensures DefaultNetworks[0].1.chainId == 42161
    ensures DefaultNetworks[1].1.chainId == 10
    ensures DefaultNetworks[2].1.chainId == 8453
    ensures forall i | 0 <= i < |DefaultNetworks| ::
      DefaultNetworks[i].1.nativeSymbol == "ETH" && DefaultNetworks[i].1.name == DefaultNetworks[i].0
  {
  }

  lemma DefaultKeysDistinct()
    ensures DistinctKeys(DefaultNetworks)
  {
  }

  /** The override variables are ARBITRUM_RPC_URL, OPTIMISM_RPC_URL and BASE_RPC_URL. */
  lemma DefaultRpcEnvVars()
    ensures RpcEnvVar("arbitrum") == "ARBITRUM_RPC_URL"
    ensures RpcEnvVar("optimism") == "OPTIMISM_RPC_URL"
    ensures RpcEnvVar("base") == "BASE_RPC_URL"
  {
  }

  /** Without overrides the registry is the default table. */
  lemma NoOverridesGivesDefaults()
    ensures Registry(map[]) == DefaultNetworks
  {
  }

  /** A variable set to the empty string has the same effect as an unset one. */
  lemma EmptyOverrideIsIgnored(env: map<string, string>, key: string)
    requires key in env && env[key] == ""
    ensures Registry(env) == Registry(env - {key})
  {
  }

  /** Variables other than the three override variables have no effect on
      the registry. */
  lemma OtherVariablesIgnored(env: map<string, string>, key: string, v: string)
    requires key != "ARBITRUM_RPC_URL" && key != "OPTIMISM_RPC_URL" && key != "BASE_RPC_URL"
    ensures Registry(env[key := v]) == Registry(env)
  {
    DefaultRpcEnvVars();
  }

  /** Setting one network's override variable changes that network's
      endpoint (to the value, unless it is empty) and no other record. */
  lemma OverrideIsLocal(env: map<string, string>, i: nat, v: string)
    requires i < |DefaultNetworks|
    ensures var r := Registry(env[RpcEnvVar(DefaultNetworks[i].0) := v]);
      && (forall j | 0 <= j < |DefaultNetworks| && j != i :: r[j] == Registry(env)[j])
      && r[i].1.rpcUrl == (if v != "" then v else DefaultNetworks[i].1.rpcUrl)
  {
    DefaultRpcEnvVars();
  }
}

