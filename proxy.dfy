/** Recovering the proxy address after a factory deployment
    (src/commands/deployViaFactory.ts): the receipt's logs are scanned in order
    for the first `ContractDeployed` event, and when none yields an address the
    factory's `deployedContracts(owner)` registry is consulted. The SDK's
    `parseLog` is a parameter; the registry query's outcome is an input. */
module Proxy {
  import opened Basics

  /** A decoded event: its name and its arguments rendered as text. */
  datatype Event = Event(name: string, args: seq<string>)

  /** What `factoryCtr.interface.parseLog(log)` does with one log: returns an
      event, returns null (not one of the factory's events), or throws. */
  datatype Parsed = Decoded(event: Event) | NotFactoryEvent | Throws

  predicate IsContractDeployed(p: Parsed)
  {
    p.Decoded? && p.event.name == "ContractDeployed"
  }

  /** `parsed.args[2]`: the indexed `proxy` argument, `undefined` if absent. */
  function ProxyArg(e: Event): Option<string>
  {
    if |e.args| > 2 then Some(e.args[2]) else None
  }

  /** Index of the first log, from `i` on, that decodes as `ContractDeployed`. */
  function FirstDeployed<L>(logs: seq<L>, parseLog: L -> Parsed, i: nat): (k: Option<nat>)
    requires i <= |logs|
    ensures k.Some? ==> (i <= k.value < |logs| && IsContractDeployed(parseLog(logs[k.value])) &&
      forall j :: i <= j < k.value ==> !IsContractDeployed(parseLog(logs[j])))
    ensures k.None? ==> forall j :: i <= j < |logs| ==> !IsContractDeployed(parseLog(logs[j]))
    decreases |logs| - i
  {
    if i == |logs| then None
    else if IsContractDeployed(parseLog(logs[i])) then Some(i)
    else FirstDeployed(logs, parseLog, i + 1)
  }

  /** The address the event scan yields: `args[2]` of the first
      `ContractDeployed` event, and nothing when there is no such event. */
  function EventProxy<L>(logs: seq<L>, parseLog: L -> Parsed): Option<string>
  {
    match FirstDeployed(logs, parseLog, 0)
    case None => None
    case Some(k) => ProxyArg(parseLog(logs[k]).event)
  }

  /** The `for (const log of receipt.logs)` loop: logs whose parse throws or
      that are not `ContractDeployed` are skipped; the first
      `ContractDeployed` sets the proxy and ends the scan. */
  method ScanLogs<L>(logs: seq<L>, parseLog: L -> Parsed) returns (proxy: Option<string>)
    ensures proxy == EventProxy(logs, parseLog)
  {
    proxy := None;
    var i := 0;
    while i < |logs|
      invariant 0 <= i <= |logs|
      invariant FirstDeployed(logs, parseLog, 0) == FirstDeployed(logs, parseLog, i)
    {
      var parsed := parseLog(logs[i]);
      if parsed.Decoded? && parsed.event.name == "ContractDeployed" {
        proxy := ProxyArg(parsed.event);
        return;
      }
      i := i + 1;
    }
  }

  /** The scan stops at the first `ContractDeployed` event: logs after it,
      including later `ContractDeployed` events, do not change the result. */
  lemma {:induction false} LaterLogsIgnored<L>(logs: seq<L>, more: seq<L>, parseLog: L -> Parsed, i: nat)
    requires i <= |logs|
    requires FirstDeployed(logs, parseLog, i).Some?
    ensures FirstDeployed(logs + more, parseLog, i) == FirstDeployed(logs, parseLog, i)
    decreases |logs| - i
  {
    assert (logs + more)[i] == logs[i];
    if !IsContractDeployed(parseLog(logs[i])) {
      LaterLogsIgnored(logs, more, parseLog, i + 1);
    }
  }

  /** A warning or log line the fallback prints instead of failing. */
  datatype Notice = RegistryEmpty | RegistryQueryFailed(error: Error)

  /** `deployViaFactory`'s resolution: the event scan, then, only when it
      yields nothing truthy, the registry's last entry; an empty registry or a
      failing query leaves the proxy as the scan left it, and the command
      reports success either way. */
  method ResolveProxy<L>(logs: seq<L>, parseLog: L -> Parsed, registry: Result<seq<string>>)
    returns (proxy: Option<string>, notice: Option<Notice>)
    ensures Truthy(EventProxy(logs, parseLog)) ==> proxy == EventProxy(logs, parseLog) && notice == None
    ensures !Truthy(EventProxy(logs, parseLog)) && registry.Ok? && |registry.value| > 0 ==>
      proxy == Some(registry.value[|registry.value| - 1]) && notice == None
    ensures !Truthy(EventProxy(logs, parseLog)) && registry.Ok? && |registry.value| == 0 ==>
      proxy == EventProxy(logs, parseLog) && notice == Some(RegistryEmpty)
    ensures !Truthy(EventProxy(logs, parseLog)) && registry.Err? ==>
      proxy == EventProxy(logs, parseLog) && notice == Some(RegistryQueryFailed(registry.error))
  {
    proxy := ScanLogs(logs, parseLog);
    notice := None;
    if !Truthy(proxy) {
      match registry {
        case Err(e) =>
          notice := Some(RegistryQueryFailed(e));
        case Ok(all) =>
          if |all| == 0 {
            notice := Some(RegistryEmpty);
          } else {
            proxy := Some(all[|all| - 1]);
          }
      }
    }
  }

  /** `deployViaFactoryByVersion`'s resolution: the same scan, then
      `all[all.length - 1]` with no emptiness check (an empty registry gives
      `undefined`) and no catch (a failing query fails the command). */
  method ResolveProxyByVersion<L>(logs: seq<L>, parseLog: L -> Parsed, registry: Result<seq<string>>)
    returns (r: Result<Option<string>>)
    ensures Truthy(EventProxy(logs, parseLog)) ==> r == Ok(EventProxy(logs, parseLog))
    ensures !Truthy(EventProxy(logs, parseLog)) && registry.Ok? ==>
      r == Ok(if |registry.value| == 0 then None else Some(registry.value[|registry.value| - 1]))
    ensures !Truthy(EventProxy(logs, parseLog)) && registry.Err? ==> r == Err(registry.error)
  {
    var proxy := ScanLogs(logs, parseLog);
    if !Truthy(proxy) {
      match registry {
        case Err(e) =>
          return Err(e);
        case Ok(all) =>
          proxy := if |all| == 0 then None else Some(all[|all| - 1]);
      }
    }
    r := Ok(proxy);
  }
}
