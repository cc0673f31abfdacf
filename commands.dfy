/** The four mutating commands as outcome functions of their inputs
    (src/commands/deploy.ts, src/commands/set.ts, src/commands/deployViaFactory.ts).
    Each runs its guards in the source's order and ends in an error, an exit
    with a status, or one submitted transaction. The network's answers
    (gas estimate and fee data for the unsigned transaction), the prompt
    answers and the confirmation are inputs. */
module Commands {
  import opened Basics
  import opened Js
  import opened Sdk
  import opened Coerce
  import opened Artifacts
  import opened Rpc
  import opened Signature

  /** How a command ends: a thrown error (exit status 1 at the top level),
      `process.exit(code)`, or the one transaction it submits. */
  datatype Outcome<T> = Failed(error: Error) | Exited(code: nat) | Sent(tx: T)

  /** `factory.deploy(...constructorArgs)` for the artifact loaded from `artifact`. */
  datatype DeployTx<J> = DeployTx(artifact: string, args: CtorArgs<J>)

  /** Calls to the factory contract at address `factory`. */
  datatype FactoryCall =
    | SetImplementation(factory: string, typeHash: Bytes32, impl: string)
    | DeployContract(factory: string, owner: string, typeHash: Bytes32, initData: string)
    | DeployContractByVersion(factory: string, owner: string, typeHash: Bytes32, version: int, initData: string)

  /** `process.env.PRIVATE_KEY` is truthy. */
  predicate HasKey(env: map<string, string>)
  {
    Truthy(Lookup(env, "PRIVATE_KEY"))
  }

  const KeyMissing: Error := Thrown("PRIVATE_KEY env missing")

  /** The network estimated `tx` and the cost could be computed from its fee data. */
  predicate Priced<T>(quote: T -> Result<Quote>, tx: T)
  {
    quote(tx).Ok? && EstimatedCost(quote(tx).value).Ok?
  }

  /** The common tail of every on-chain path: estimate the unsigned `tx`,
      compute and show the cost, ask, and on a yes submit that same `tx`; a no
      exits with status 0 before anything is sent. `unpriced` is the error
      thrown when the fee data has no fee at all, which depends on whether the
      command multiplies before it formats the price. */
  function ConfirmAndSend<T>(tx: T, quote: T -> Result<Quote>, unpriced: Error, confirm: bool): (r: Outcome<T>)
    ensures r.Sent? <==> Priced(quote, tx) && confirm
    ensures r.Sent? ==> r.tx == tx
    ensures Priced(quote, tx) && !confirm ==> r == Exited(0)
    ensures quote(tx).Err? ==> r == Failed(quote(tx).error)
    ensures quote(tx).Ok? && EstimatedCost(quote(tx).value).Err? ==> r == Failed(unpriced)
  {
    match quote(tx)
    case Err(e) => Failed(e)
    case Ok(q) =>
      match EstimatedCost(q)
      case Err(_) => Failed(unpriced)
      case Ok(_) => if confirm then Sent(tx) else Exited(0)
  }

  /* ---------------------------------------------------------------- */
  /*  set <implAddress>                                                */
  /* ---------------------------------------------------------------- */

  function FactoryMissingForSet(chainId: nat): Error
  {
    Thrown("Factory not deployed on chainId " + NatToString(chainId))
  }

  /** RPC URL, private key and factory address all resolve. */
  predicate SetGuardsPass(env: map<string, string>, chainId: nat)
  {
    ResolveRpcEnv(env, chainId).Ok? && HasKey(env) && FactoryAddress(chainId).Some?
  }

  /** `setImplementation`: RPC, key, factory address, then gasless, then the
      on-chain path with `setImplementation(keccak256(contractType), implAddr)`. */
  function SetImplementationCommand(implAddr: string, contractType: string, chainId: nat, gasless: bool,
                                    env: map<string, string>, quote: FactoryCall -> Result<Quote>, confirm: bool)
    : (r: Outcome<FactoryCall>)
    ensures r.Sent? <==> (
      SetGuardsPass(env, chainId) && !gasless && confirm &&
      Priced(quote, SetImplementation(FactoryAddress(chainId).value, TypeHash(contractType), implAddr)))
    ensures r.Sent? ==> r.tx == SetImplementation(FactoryAddress(chainId).value, TypeHash(contractType), implAddr)
    // the guards fail in source order
    ensures ResolveRpcEnv(env, chainId).Err? ==> r == Failed(ResolveRpcEnv(env, chainId).error)
    ensures ResolveRpcEnv(env, chainId).Ok? && !HasKey(env) ==> r == Failed(KeyMissing)
    ensures (ResolveRpcEnv(env, chainId).Ok? && HasKey(env) && FactoryAddress(chainId).None?) ==>
      r == Failed(FactoryMissingForSet(chainId))
    // then the gasless exit, the estimate, and the confirmation
    ensures SetGuardsPass(env, chainId) && gasless ==> r == Exited(1)
    ensures SetGuardsPass(env, chainId) && !gasless ==>
      r == ConfirmAndSend(SetImplementation(FactoryAddress(chainId).value, TypeHash(contractType), implAddr),
                          quote, MixedBigInt, confirm)
    ensures (SetGuardsPass(env, chainId) && !gasless &&
             quote(SetImplementation(FactoryAddress(chainId).value, TypeHash(contractType), implAddr)).Err?) ==>
      r == Failed(quote(SetImplementation(FactoryAddress(chainId).value, TypeHash(contractType), implAddr)).error)
    ensures (SetGuardsPass(env, chainId) && !gasless &&
             quote(SetImplementation(FactoryAddress(chainId).value, TypeHash(contractType), implAddr)).Ok? &&
             EstimatedCost(quote(SetImplementation(FactoryAddress(chainId).value, TypeHash(contractType),
                                                   implAddr)).value).Err?) ==>
      r == Failed(MixedBigInt)
    ensures (SetGuardsPass(env, chainId) && !gasless && !confirm &&
             Priced(quote, SetImplementation(FactoryAddress(chainId).value, TypeHash(contractType), implAddr))) ==>
      r == Exited(0)
  {
    match ResolveRpcEnv(env, chainId)
    case Err(e) => Failed(e)
    case Ok(_) =>
      if !HasKey(env) then Failed(KeyMissing)
      else match FactoryAddress(chainId)
      case None => Failed(FactoryMissingForSet(chainId))
      case Some(factory) =>
        if gasless then Exited(1)
        else ConfirmAndSend(SetImplementation(factory, TypeHash(contractType), implAddr), quote, MixedBigInt, confirm)
  }

  /* ---------------------------------------------------------------- */
  /*  deployViaFactory / deployViaFactoryByVersion                     */
  /* ---------------------------------------------------------------- */

  /** The SDK's part in building the init data: `new ethers.Interface([fnSignature])`
      may throw, and `encodeFunctionData(fnName, JSON.parse(fnArgsJson))` may
      throw or give the encoded call for the extracted function name. */
  datatype InitEncoder = InitEncoder(interfaceError: Option<Error>, encode: string -> Result<string>)

  function InvalidSignature(sig: string): Error
  {
    Thrown("Invalid fnSignature: " + sig)
  }

  /** Init data for the function named in `sig`, found with the given name
      extractor: the interface is built first, then the name is checked, then
      the call is encoded. */
  function InitData(sig: string, enc: InitEncoder, name: Option<string>): (r: Result<string>)
    ensures enc.interfaceError.Some? ==> r == Err(enc.interfaceError.value)
    ensures enc.interfaceError.None? && name.None? ==> r == Err(InvalidSignature(sig))
    ensures enc.interfaceError.None? && name.Some? ==> r == enc.encode(name.value)
    ensures r.Ok? ==> enc.interfaceError.None? && name.Some?
  {
    if enc.interfaceError.Some? then Err(enc.interfaceError.value)
    else if name.None? then Err(InvalidSignature(sig))
    else enc.encode(name.value)
  }

  function FactoryMissing(chainId: nat): Error
  {
    Thrown("No Factory on chain " + NatToString(chainId))
  }

  /** RPC URL, private key, init data and factory address all resolve. */
  predicate FactoryGuardsPass(env: map<string, string>, chainId: nat, init: Result<string>)
  {
    ResolveRpcEnv(env, chainId).Ok? && HasKey(env) && init.Ok? && FactoryAddress(chainId).Some?
  }

  /** The outcome of the guards that both factory commands run, in this
      order, before anything else: RPC URL, private key, init data, factory. */
  predicate FailsAtGuard<T>(r: Outcome<T>, env: map<string, string>, chainId: nat, init: Result<string>)
  {
    if ResolveRpcEnv(env, chainId).Err? then r == Failed(ResolveRpcEnv(env, chainId).error)
    else if !HasKey(env) then r == Failed(KeyMissing)
    else if init.Err? then r == Failed(init.error)
    else FactoryAddress(chainId).None? && r == Failed(FactoryMissing(chainId))
  }

  /** `deployViaFactory`: RPC, key, init data (strict signature pattern),
      factory address, then gasless, then the on-chain path with
      `deployContract(owner, keccak256(contractType), initData)`. */
  function DeployViaFactoryCommand(owner: string, contractType: string, sig: string, enc: InitEncoder,
                                   chainId: nat, gasless: bool, env: map<string, string>,
                                   quote: FactoryCall -> Result<Quote>, confirm: bool)
    : (r: Outcome<FactoryCall>)
    ensures var init := InitData(sig, enc, StrictFunctionName(sig));
      r.Sent? <==> (
        FactoryGuardsPass(env, chainId, init) && !gasless && confirm &&
        Priced(quote, DeployContract(FactoryAddress(chainId).value, owner, TypeHash(contractType), init.value)))
    ensures r.Sent? ==> r.tx == DeployContract(FactoryAddress(chainId).value, owner, TypeHash(contractType),
                                               enc.encode(StrictFunctionName(sig).value).value)
    ensures var init := InitData(sig, enc, StrictFunctionName(sig));
      !FactoryGuardsPass(env, chainId, init) ==> FailsAtGuard(r, env, chainId, init)
    ensures var init := InitData(sig, enc, StrictFunctionName(sig));
      FactoryGuardsPass(env, chainId, init) && gasless ==> r == Exited(1)
    ensures var init := InitData(sig, enc, StrictFunctionName(sig));
      FactoryGuardsPass(env, chainId, init) && !gasless ==>
        r == ConfirmAndSend(DeployContract(FactoryAddress(chainId).value, owner, TypeHash(contractType), init.value),
                            quote, MixedBigInt, confirm)
    ensures var init := InitData(sig, enc, StrictFunctionName(sig));
      (FactoryGuardsPass(env, chainId, init) && !gasless &&
       quote(DeployContract(FactoryAddress(chainId).value, owner, TypeHash(contractType), init.value)).Err?) ==>
        r == Failed(quote(DeployContract(FactoryAddress(chainId).value, owner, TypeHash(contractType), init.value)).error)
    ensures var init := InitData(sig, enc, StrictFunctionName(sig));
      (FactoryGuardsPass(env, chainId, init) && !gasless &&
       quote(DeployContract(FactoryAddress(chainId).value, owner, TypeHash(contractType), init.value)).Ok? &&
       EstimatedCost(quote(DeployContract(FactoryAddress(chainId).value, owner, TypeHash(contractType),
                                          init.value)).value).Err?) ==>
        r == Failed(MixedBigInt)
    ensures var init := InitData(sig, enc, StrictFunctionName(sig));
      (FactoryGuardsPass(env, chainId, init) && !gasless && !confirm &&
       Priced(quote, DeployContract(FactoryAddress(chainId).value, owner, TypeHash(contractType), init.value))) ==>
        r == Exited(0)
  {
    match ResolveRpcEnv(env, chainId)
    case Err(e) => Failed(e)
    case Ok(_) =>
      if !HasKey(env) then Failed(KeyMissing)
      else match InitData(sig, enc, StrictFunctionName(sig))
      case Err(e) => Failed(e)
      case Ok(initData) =>
        match FactoryAddress(chainId)
        case None => Failed(FactoryMissing(chainId))
        case Some(factory) =>
          if gasless then Exited(1)
          else ConfirmAndSend(DeployContract(factory, owner, TypeHash(contractType), initData), quote, MixedBigInt, confirm)
  }

  /** `deployViaFactoryByVersion`: the same guards with the loose signature
      pattern and no gasless branch, then
      `deployContractByVersion(owner, keccak256(contractType), version, initData)`. */
  function DeployViaFactoryByVersionCommand(owner: string, contractType: string, version: int, sig: string,
                                            enc: InitEncoder, chainId: nat, env: map<string, string>,
                                            quote: FactoryCall -> Result<Quote>, confirm: bool)
    : (r: Outcome<FactoryCall>)
    ensures var init := InitData(sig, enc, LooseFunctionName(sig));
      r.Sent? <==> (
        FactoryGuardsPass(env, chainId, init) && confirm &&
        Priced(quote, DeployContractByVersion(FactoryAddress(chainId).value, owner, TypeHash(contractType),
                                              version, init.value)))
    ensures r.Sent? ==> r.tx == DeployContractByVersion(FactoryAddress(chainId).value, owner, TypeHash(contractType),
                                                        version, enc.encode(LooseFunctionName(sig).value).value)
    ensures var init := InitData(sig, enc, LooseFunctionName(sig));
      !FactoryGuardsPass(env, chainId, init) ==> FailsAtGuard(r, env, chainId, init)
    ensures var init := InitData(sig, enc, LooseFunctionName(sig));
      FactoryGuardsPass(env, chainId, init) ==>
        r == ConfirmAndSend(DeployContractByVersion(FactoryAddress(chainId).value, owner, TypeHash(contractType),
                                                    version, init.value), quote, FormatUnitsOfNull, confirm)
    ensures var init := InitData(sig, enc, LooseFunctionName(sig));
      (FactoryGuardsPass(env, chainId, init) &&
       quote(DeployContractByVersion(FactoryAddress(chainId).value, owner, TypeHash(contractType),
                                     version, init.value)).Err?) ==>
        r == Failed(quote(DeployContractByVersion(FactoryAddress(chainId).value, owner, TypeHash(contractType),
                                                  version, init.value)).error)
    ensures var init := InitData(sig, enc, LooseFunctionName(sig));
      (FactoryGuardsPass(env, chainId, init) && !confirm &&
       Priced(quote, DeployContractByVersion(FactoryAddress(chainId).value, owner, TypeHash(contractType),
                                             version, init.value))) ==>
        r == Exited(0)
    // with no fee at all, `formatUnits(gasPrice, 'gwei')` throws before the multiplication
    ensures var init := InitData(sig, enc, LooseFunctionName(sig));
      (FactoryGuardsPass(env, chainId, init) &&
       quote(DeployContractByVersion(FactoryAddress(chainId).value, owner, TypeHash(contractType),
                                     version, init.value)).Ok? &&
       EstimatedCost(quote(DeployContractByVersion(FactoryAddress(chainId).value, owner, TypeHash(contractType),
                                                   version, init.value)).value).Err?) ==>
        r == Failed(FormatUnitsOfNull)
    ensures r != Exited(1)
  {
    match ResolveRpcEnv(env, chainId)
    case Err(e) => Failed(e)
    case Ok(_) =>
      if !HasKey(env) then Failed(KeyMissing)
      else match InitData(sig, enc, LooseFunctionName(sig))
      case Err(e) => Failed(e)
      case Ok(initData) =>
        match FactoryAddress(chainId)
        case None => Failed(FactoryMissing(chainId))
        case Some(factory) =>
          ConfirmAndSend(DeployContractByVersion(factory, owner, TypeHash(contractType), version, initData), quote, FormatUnitsOfNull, confirm)
  }

  /* ---------------------------------------------------------------- */
  /*  deploy                                                           */
  /* ---------------------------------------------------------------- */

  /** The constructor questions put to the user and how `deploy` ended. */
  datatype DeployRun<J> = DeployRun(asked: seq<Question>, outcome: Outcome<DeployTx<J>>)

  /** `deployContract`: load the artifact (the walk's `files`, the `--contract`
      hint, the user's `pick` when asked), reconcile the constructor arguments
      (`ctorOf` gives the constructor inputs of the artifact stored at a path,
      `supplied` the parsed `--args`, `answers` the prompt answers), then RPC,
      key, gasless, and the on-chain path. The constructor prompts come before
      the RPC and key checks. */
  function DeployCommand<J>(files: seq<FileEntry>, hint: Option<string>, pick: nat,
                            ctorOf: string -> Option<seq<Param>>, supplied: seq<J>, answers: map<string, string>,
                            chainId: nat, gasless: bool, env: map<string, string>,
                            quote: DeployTx<J> -> Result<Quote>, confirm: bool)
    : (r: DeployRun<J>)
    requires !Truthy(hint) && |Candidates(files)| > 1 ==> pick < |Candidates(files)|
    // the artifact: nothing is asked when it cannot be loaded
    ensures var load := LoadArtifactPath(files, hint, pick);
      load.Err? ==> r == DeployRun([], Failed(load.error))
    // the constructor arguments: asked before any other guard
    ensures var load := LoadArtifactPath(files, hint, pick);
      load.Ok? ==> r.asked == ReconcileArgs(ctorOf(load.value), supplied, answers).asked
    ensures var load := LoadArtifactPath(files, hint, pick);
      load.Ok? && ReconcileArgs(ctorOf(load.value), supplied, answers).args.Err? ==>
        r.outcome == Failed(ReconcileArgs(ctorOf(load.value), supplied, answers).args.error)
    // then RPC, key and gasless, in that order
    ensures var load := LoadArtifactPath(files, hint, pick);
      (load.Ok? && ReconcileArgs(ctorOf(load.value), supplied, answers).args.Ok? &&
       ResolveRpcWithTable(env, chainId).Err?) ==>
        r.outcome == Failed(ResolveRpcWithTable(env, chainId).error)
    ensures var load := LoadArtifactPath(files, hint, pick);
      (load.Ok? && ReconcileArgs(ctorOf(load.value), supplied, answers).args.Ok? &&
       ResolveRpcWithTable(env, chainId).Ok? && !HasKey(env)) ==>
        r.outcome == Failed(KeyMissing)
    ensures var load := LoadArtifactPath(files, hint, pick);
      (load.Ok? && ReconcileArgs(ctorOf(load.value), supplied, answers).args.Ok? &&
       ResolveRpcWithTable(env, chainId).Ok? && HasKey(env) && gasless) ==>
        r.outcome == Exited(1)
    // then the estimate and the confirmation of the deployment
    ensures var load := LoadArtifactPath(files, hint, pick);
      (load.Ok? && ReconcileArgs(ctorOf(load.value), supplied, answers).args.Ok? &&
       ResolveRpcWithTable(env, chainId).Ok? && HasKey(env) && !gasless) ==>
        r.outcome == ConfirmAndSend(DeployTx(load.value, ReconcileArgs(ctorOf(load.value), supplied, answers).args.value),
                                    quote, MixedBigInt, confirm)
    ensures var load := LoadArtifactPath(files, hint, pick);
      (load.Ok? && ReconcileArgs(ctorOf(load.value), supplied, answers).args.Ok? &&
       ResolveRpcWithTable(env, chainId).Ok? && HasKey(env) && !gasless &&
       quote(DeployTx(load.value, ReconcileArgs(ctorOf(load.value), supplied, answers).args.value)).Err?) ==>
        r.outcome == Failed(quote(DeployTx(load.value, ReconcileArgs(ctorOf(load.value), supplied, answers).args.value)).error)
    ensures var load := LoadArtifactPath(files, hint, pick);
      (load.Ok? && ReconcileArgs(ctorOf(load.value), supplied, answers).args.Ok? &&
       ResolveRpcWithTable(env, chainId).Ok? && HasKey(env) && !gasless &&
       quote(DeployTx(load.value, ReconcileArgs(ctorOf(load.value), supplied, answers).args.value)).Ok? &&
       EstimatedCost(quote(DeployTx(load.value,
                                    ReconcileArgs(ctorOf(load.value), supplied, answers).args.value)).value).Err?) ==>
        r.outcome == Failed(MixedBigInt)
    ensures var load := LoadArtifactPath(files, hint, pick);
      (load.Ok? && ReconcileArgs(ctorOf(load.value), supplied, answers).args.Ok? &&
       ResolveRpcWithTable(env, chainId).Ok? && HasKey(env) && !gasless && !confirm &&
       Priced(quote, DeployTx(load.value, ReconcileArgs(ctorOf(load.value), supplied, answers).args.value))) ==>
        r.outcome == Exited(0)
    ensures r.outcome.Sent? <==>
      LoadArtifactPath(files, hint, pick).Ok? &&
      ReconcileArgs(ctorOf(LoadArtifactPath(files, hint, pick).value), supplied, answers).args.Ok? &&
      ResolveRpcWithTable(env, chainId).Ok? && HasKey(env) && !gasless && confirm &&
      Priced(quote, DeployTx(LoadArtifactPath(files, hint, pick).value,
                             ReconcileArgs(ctorOf(LoadArtifactPath(files, hint, pick).value), supplied, answers).args.value))
    ensures r.outcome.Sent? ==>
      r.outcome.tx == DeployTx(LoadArtifactPath(files, hint, pick).value,
                               ReconcileArgs(ctorOf(LoadArtifactPath(files, hint, pick).value), supplied, answers).args.value)
  {
    match LoadArtifactPath(files, hint, pick)
    case Err(e) => DeployRun([], Failed(e))
    case Ok(path) =>
      var rec := ReconcileArgs(ctorOf(path), supplied, answers);
      DeployRun(rec.asked,
        match rec.args
        case Err(e) => Failed(e)
        case Ok(args) =>
          match ResolveRpcWithTable(env, chainId)
          case Err(e) => Failed(e)
          case Ok(_) =>
            if !HasKey(env) then Failed(KeyMissing)
            else if gasless then Exited(1)
            else ConfirmAndSend(DeployTx(path, args), quote, MixedBigInt, confirm))
  }
}
