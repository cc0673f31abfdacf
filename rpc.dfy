/** RPC endpoint resolution and the per-chain factory table
    (src/commands/deploy.ts, src/commands/set.ts, src/commands/deployViaFactory.ts,
    src/constants/index.ts). The process environment is a map from variable
    names to values; a variable that is not set is absent from the map. */
module Rpc {
  import opened Basics
  import opened Js

  /** `RPC_URLs`: the built-in endpoints of `deploy`. */
  const RpcUrls: map<nat, string> := map[
    1 := "https://eth.llamarpc.com",
    137 := "https://polygon.drpc.org",
    11155111 := "https://1rpc.io/sepolia",
    80002 := "https://rpc-amoy.polygon.technology/",
    592 := "https://evm.astar.network",
    1868 := "https://rpc.soneium.org",
    1946 := "https://rpc.minato.soneium.org",
    480 := "https://worldchain-mainnet.g.alchemy.com/public",
    4801 := "https://worldchain-sepolia.g.alchemy.com/public",
    336 := "https://shiden.api.onfinality.io/public",
    42220 := "https://forno.celo.org",
    44787 := "https://alfajores-forno.celo-testnet.org",
    56 := "https://bsc.publicnode.com",
    97 := "https://bsc-testnet.publicnode.com",
    43114 := "https://api.avax.network/ext/bc/C/rpc",
    43113 := "https://api.avax-test.network/ext/bc/C/rpc",
    1101 := "https://zkevm-rpc.com",
    2442 := "https://etherscan.cardona.zkevm-rpc.com/"
  ]

  /** `FACTORY_ADDRESS`: the factory contract deployed on each chain. */
  const FactoryAddresses: map<nat, string> := map[
    11155111 := "0x7d4B0E58A871DBB35C7DFd131ba1eEdD3a767e67"
  ]

  /** `RPC_URL_${chainId}`. */
  function EnvKey(chainId: nat): string
  {
    "RPC_URL_" + NatToString(chainId)
  }

  /** `process.env[key] ?? process.env.RPC_URL`: the per-chain variable when it
      is set at all, even to the empty string. */
  function EnvChoice(env: map<string, string>, chainId: nat): Option<string>
  {
    Coalesce(Lookup(env, EnvKey(chainId)), Lookup(env, "RPC_URL"))
  }

  function NotSet(chainId: nat): Error
  {
    Thrown("RPC URL not set (expected " + EnvKey(chainId) + " or RPC_URL)")
  }

  /** `resolveRpc` of set.ts and of deployViaFactory.ts (the two are the same
      text): the environment only, with no built-in table. */
  function ResolveRpcEnv(env: map<string, string>, chainId: nat): (r: Result<string>)
    ensures r.Ok? ==> r.value != ""
    ensures EnvKey(chainId) in env && env[EnvKey(chainId)] != "" ==> r == Ok(env[EnvKey(chainId)])
    ensures EnvKey(chainId) in env && env[EnvKey(chainId)] == "" ==> r == Err(NotSet(chainId))
    ensures EnvKey(chainId) !in env ==>
      r == (if "RPC_URL" in env && env["RPC_URL"] != "" then Ok(env["RPC_URL"]) else Err(NotSet(chainId)))
  {
    var url := EnvChoice(env, chainId);
    if !Truthy(url) then Err(NotSet(chainId)) else Ok(url.value)
  }

  /** `resolveRpc` of deploy.ts: when the environment's choice is absent or
      empty, the built-in table is consulted, and a chain missing from it is an error. */
  function ResolveRpcWithTable(env: map<string, string>, chainId: nat): (r: Result<string>)
    ensures r.Ok? ==> r.value != ""
    ensures Truthy(EnvChoice(env, chainId)) ==> r == Ok(EnvChoice(env, chainId).value)
    ensures !Truthy(EnvChoice(env, chainId)) ==>
      r == (if chainId in RpcUrls then Ok(RpcUrls[chainId]) else Err(NotSet(chainId)))
  {
    var url := EnvChoice(env, chainId);
    if !Truthy(url) then
      var fallback := Lookup(RpcUrls, chainId);
      if !Truthy(fallback) then Err(NotSet(chainId)) else Ok(fallback.value)
    else Ok(url.value)
  }

  /** The table of deploy.ts only adds a fallback: wherever the environment-only
      resolver succeeds, both agree; where it fails, deploy.ts answers with the
      table entry for the chain or the same error. */
  lemma TableOnlyAddsFallback(env: map<string, string>, chainId: nat)
    ensures ResolveRpcEnv(env, chainId).Ok? ==> ResolveRpcWithTable(env, chainId) == ResolveRpcEnv(env, chainId)
    ensures ResolveRpcEnv(env, chainId).Err? ==>
      ResolveRpcWithTable(env, chainId) ==
        (if chainId in RpcUrls then Ok(RpcUrls[chainId]) else ResolveRpcEnv(env, chainId))
  {
  }

  /** `??` rather than `||`: a per-chain variable set to the empty string hides
      a set `RPC_URL`. The environment-only resolver then fails, and deploy.ts
      falls through to its table, failing only on a chain the table lacks. */
  lemma EmptyPerChainShadowsGeneric(env: map<string, string>, chainId: nat)
    requires EnvKey(chainId) in env && env[EnvKey(chainId)] == ""
    requires "RPC_URL" in env && env["RPC_URL"] != ""
    ensures ResolveRpcEnv(env, chainId) == Err(NotSet(chainId))
    ensures ResolveRpcWithTable(env, chainId) ==
      (if chainId in RpcUrls then Ok(RpcUrls[chainId]) else Err(NotSet(chainId)))
  {
  }

  /** `FACTORY_ADDRESS[chainId]`, when truthy. */
  function FactoryAddress(chainId: nat): (r: Option<string>)
    ensures r.Some? <==> chainId in FactoryAddresses && FactoryAddresses[chainId] != ""
    ensures r.Some? ==> r.value == FactoryAddresses[chainId]
  {
    var a := Lookup(FactoryAddresses, chainId);
    if Truthy(a) then a else None
  }
}
