# hazbase factory CLI — a Dafny model of its decision logic

`hazbase-factory` is a command-line tool that deploys smart contracts to
EVM chains, either directly from a compiled Hardhat artifact (`deploy`) or
through an on-chain factory contract (`set`, `deployViaFactory`,
`deployViaFactoryByVersion`). This project models what the three command
files decide before and after the single transaction each of them submits:

- **RPC resolution** (`Rpc`): the per-chain variable `RPC_URL_<chainId>`,
  then `RPC_URL`, chosen with `??` (a per-chain variable set to the empty
  string hides `RPC_URL`); `deploy` alone falls back to its built-in table of
  eighteen public endpoints. The factory address table has one entry
  (Sepolia).
- **Artifact discovery** (`Artifacts`): the walk's files are filtered to
  `.json` artifacts with an array `abi` and a truthy `bytecode`, named by
  `contractName ?? basename`, and any name matching `/Mock|Test|Lib/i` is
  dropped — also when a `--contract` hint names it. A hint is looked up by
  name or path substring; without one, zero candidates is an error, one is
  taken, several are offered to the user.
- **Argument coercion** (`Coerce`): JavaScript `BigInt` on strings (trim,
  empty text is 0, `0x`/`0o`/`0b`, a sign only on decimals); `parseTupleArg`
  with its flat comma split; the reconciliation of the JSON `--args` array
  with the constructor's inputs (passed through unchanged unless the
  constructor has inputs and the count differs, in which case one question is
  asked per input and every answer is coerced by its type).
- **Initializer name extraction** (`Signature`): the strict pattern
  `/function\s+(\w+)\s*\(/` of `deployViaFactory` and the loose
  `/function\s+(\w+)/` of `deployViaFactoryByVersion`, leftmost match.
- **Proxy recovery** (`Proxy`): the scan of the receipt's logs for the first
  `ContractDeployed` event, and the fallback to the factory's
  `deployedContracts(owner)` registry, which differs between the two factory
  commands (guarded and caught in one, unguarded in the other).
- **Command flow** (`Commands`): each command's guards in source order
  (RPC, private key, signature / init data, factory address, `--gasless`),
  the fee estimate (`maxFeePerGas ?? gasPrice` times the gas estimate), the
  confirmation, and the one transaction sent. The central property, proved
  for every command: a transaction is sent if and only if every guard passes,
  the estimate can be priced and the user confirms, and the transaction sent
  is the one that was estimated.

The network (gas estimates, fee data, receipts, the registry query), the
interactive answers, the confirmation and the SDK's encoders and log parser
are parameters of the model. Hashing is symbolic: `Sdk.TypeHash(name)`
stands for `keccak256(toUtf8Bytes(name))`.

Two behaviours of the code are worth knowing: the Mock/Test/Lib filter
applies to every candidate, so even a `--contract` hint naming such a
contract cannot select it; and a `--args` array whose length matches the
constructor's inputs is passed to the deployment as parsed, without any
coercion.

## Model

| member | source | states |
|---|---|---|
| Js.TrimSpec | src/commands/deploy.ts:24 | `trim` removes exactly the leading and trailing runs of JavaScript whitespace and nothing inside |
| Js.SplitJoin | src/commands/deploy.ts:25 | `split(",")` loses nothing: joining the pieces with the separator gives the text back |
| Js.SplitPiecesLackSeparator | src/commands/deploy.ts:25 | no piece of `split(",")` contains a comma |
| Js.SplitWithoutSeparator | src/commands/deploy.ts:25 | text without the separator splits into exactly itself |
| Coerce.BigIntOf | src/commands/deploy.ts:86 | `BigInt(undefined)` throws, blank text converts to 0, and any other failure is a syntax error naming the text |
| Coerce.DecimalRoundTrip | src/commands/deploy.ts:30 | the decimal digits of a natural number are valid digits and read back as that number |
| Coerce.BigIntRoundTrip | src/commands/deploy.ts:29-30 | `BigInt` of the decimal text of any integer, however large, is exactly that integer |
| Coerce.CleanSpec | src/commands/deploy.ts:24 | cleaning strips at most one leading `[` or `(` and a trailing run of closers and spaces |
| Coerce.CleanEndsClean | src/commands/deploy.ts:24 | the whole trailing run goes: the cleaned text never ends with a closer or a space |
| Coerce.NestedPieceIsSingle | src/commands/deploy.ts:25 | every piece of the flat split is comma-free, so a nested tuple's text splits into a single piece |
| Coerce.IntTypeIsNoOther | src/commands/deploy.ts:29-37 | a `uint*`/`int*` type is none of `bool`, `address`, `bytes*`, `tuple*`, so the order of the type tests only matters for the error case |
| Coerce.CoerceComponent | src/commands/deploy.ts:28-38 | one component by its type: `uint*`/`int*` through `BigInt` (its error passed on), `bool` is `v === "true"`, `address`/`bytes*` pass the piece (or `undefined`), `tuple*` is `parseTupleArg` of the piece, its values as a tuple or its error passed on (a missing piece throws in `trim`; a result has one value per sub-component), anything else throws "Unsupported type <type>" |
| Coerce.ParseTupleArg | src/commands/deploy.ts:23-40 | a successful parse yields one value per declared component |
| Basics.MapOrThrow | src/commands/deploy.ts:27-39 | a `map` whose callback may throw: on success one value per element, each the callback's value for that element; on failure the error of the first element whose callback throws, all earlier ones having succeeded |
| Coerce.ParseTupleArgComponents | src/commands/deploy.ts:27-39 | `parseTupleArg` returns, in component order, each piece coerced by its component's type, or the first component's error |
| Coerce.NestedTupleLosesSecondField | src/commands/deploy.ts:25-36 | a tuple component whose own second field is an integer makes `parseTupleArg` throw whatever the text, because the nested call sees one piece |
| Coerce.ArgKeysDistinct | src/commands/deploy.ts:72-76 | different constructor inputs are asked under different answer keys `arg<i>` |
| Coerce.CoerceAnswer | src/commands/deploy.ts:80-88 | one prompt answer by its input's type: `tuple*` first, as `parseTupleArg` of the answer (its values as a tuple, or its error passed on; a missing answer throws in `trim`), then `uint*`/`int*` through `BigInt` (failing exactly when `BigInt` fails), anything else kept as the raw text |
| Coerce.IntegerAnswerIsExact | src/commands/deploy.ts:85-87 | an integer typed at the prompt for a `uint*`/`int*` input reaches the deployment as exactly that integer |
| Coerce.CoerceAnswersValues | src/commands/deploy.ts:78-89 | each coerced argument is the coercion of the answer under its own key, in input order; an error is that of the first answer whose coercion throws |
| Coerce.ReconcileArgs | src/commands/deploy.ts:64-92 | without a constructor with inputs, or on a matching count, nothing is asked and `--args` passes unchanged; otherwise one question per input with the source's key and message, and the result has one value per input |
| Coerce.ReconciledValues | src/commands/deploy.ts:72-89 | on a count mismatch each argument is the coerced answer to its own question; a failure is the first failing answer's |
| Sdk.EstimatedCost | src/commands/set.ts:48-51 | the cost is gas times `maxFeePerGas` when present (even zero), else gas times `gasPrice`; it fails exactly when both fees are null |
| Artifacts.LastSlashEnd | src/commands/deploy.ts:190 | the basename starts just past the last `/` and contains no `/` |
| Artifacts.CollectArtifacts | src/commands/deploy.ts:180-198 | the loop over the walk's files builds exactly the filtered candidate list, in walk order |
| Artifacts.CandidatesAppend | src/commands/deploy.ts:184-196 | filtering distributes over concatenation of the walk's files, so walk order is kept |
| Artifacts.CandidatesSound | src/commands/deploy.ts:187-191 | every candidate is an artifact file under its own path with its own name, and no candidate name matches the blacklist |
| Artifacts.CandidatesComplete | src/commands/deploy.ts:187-191 | every artifact file whose name passes the blacklist becomes a candidate |
| Artifacts.FirstHit | src/commands/deploy.ts:204-206 | `find` returns the first candidate whose name equals the hint or whose path contains it, and none when no candidate does |
| Artifacts.ChooseArtifact | src/commands/deploy.ts:200-223 | a truthy hint gives its first hit unprompted, or "Artifact not found for <hint>" exactly when nothing hits; otherwise no candidate is "No artifacts found.", one is taken unprompted, several are picked by the user |
| Artifacts.LoadArtifactPath | src/commands/deploy.ts:225-229 | the choice's error is passed on; a chosen candidate with an empty file is "No artifact found. Did you compile?"; a chosen candidate with a non-empty file loads exactly that file, and a loaded path is always such a file |
| Artifacts.LoadedIsNeverBlacklisted | src/commands/deploy.ts:187-208 | the loaded file is always an artifact whose name passes the blacklist, so a hint naming a Mock, Test or Lib contract never selects it |
| Rpc.ResolveRpcEnv | src/commands/set.ts:114-121 | a non-empty per-chain variable wins; a per-chain variable set to "" is an error even when `RPC_URL` is set; with no per-chain variable a non-empty `RPC_URL` is used; the result is never empty |
| Rpc.ResolveRpcWithTable | src/commands/deploy.ts:231-239 | the environment's choice when truthy, otherwise the built-in table entry for the chain, otherwise the "RPC URL not set" error |
| Rpc.TableOnlyAddsFallback | src/commands/deploy.ts:231-239 | `deploy`'s resolver agrees with the environment-only resolver wherever that succeeds, and otherwise answers with the table entry or the same error |
| Rpc.EmptyPerChainShadowsGeneric | src/commands/deploy.ts:233-236 | an empty per-chain variable hides a set `RPC_URL`: the environment-only resolver fails, and `deploy` falls through to the table entry for the chain, failing only on a chain missing from the table |
| Rpc.FactoryAddress | src/commands/set.ts:32-35 | a factory address exists exactly when the chain has a non-empty entry in the factory table, and is that entry |
| Signature.MatchIsIdentifier | src/commands/deployViaFactory.ts:34-36 | a captured name is a non-empty run of word characters |
| Signature.StrictMatchIsLooseMatch | src/commands/deployViaFactory.ts:143 | where the strict pattern matches, the loose one matches with the same capture |
| Signature.FirstMatchAt | src/commands/deployViaFactory.ts:34 | the match position is the leftmost one; no position before it matches, and none matches at all when there is no result |
| Signature.FirstMatch | src/commands/deployViaFactory.ts:34-36 | there is a name exactly when some position matches, and it is the capture at the leftmost matching position, a non-empty identifier |
| Signature.MatchAtSound | src/commands/deployViaFactory.ts:34 | a reported match is a capture on the text itself: `function` at the position, one or more spaces, the word ending where word characters end and, for the strict pattern, optional spaces then `(` |
| Signature.MatchAtComplete | src/commands/deployViaFactory.ts:34 | every such capture in the text is reported by the scanner at its position |
| Signature.FirstMatchSpec | src/commands/deployViaFactory.ts:34-36 | the name found is captured at some position with no capture starting earlier, and nothing is found exactly when the text holds no capture |
| Signature.StrictFunctionName | src/commands/deployViaFactory.ts:34-36 | `deployViaFactory`'s name: present exactly when the text holds a `function <word> (` capture, and then the word of the leftmost one |
| Signature.LooseFunctionName | src/commands/deployViaFactory.ts:143-144 | `deployViaFactoryByVersion`'s name: present exactly when the text holds a `function <word>` capture, and then the word of the leftmost one |
| Signature.LooseAcceptsStrict | src/commands/deployViaFactory.ts:143-144 | every signature accepted by `deployViaFactory` is accepted by `deployViaFactoryByVersion` |
| Signature.LooseCapturesLeadingName | src/commands/deployViaFactory.ts:143 | `function <name>` followed by a non-word character yields exactly `<name>` |
| Signature.DocumentedShapeMatches | src/commands/deployViaFactory.ts:30-36 | on `function <name>(...)` both patterns match first at position 0 with capture `<name>` |
| Signature.DocumentedShapeAccepted | src/commands/deployViaFactory.ts:30-36 | a signature of the shape `function <name>(...)` yields `<name>` under both patterns |
| Signature.StrictNeedsParenthesis | src/commands/deployViaFactory.ts:34-35 | without any `(` the strict pattern never matches |
| Signature.LooseAcceptsMore | src/commands/deployViaFactory.ts:143-144 | `function <name>` with no parameter list is refused by `deployViaFactory` and accepted by `deployViaFactoryByVersion` |
| Proxy.FirstDeployed | src/commands/deployViaFactory.ts:93-99 | the index found is the first log that decodes as `ContractDeployed`; logs whose parse throws or returns another event are passed over |
| Proxy.ScanLogs | src/commands/deployViaFactory.ts:91-102 | the loop yields `args[2]` of the first `ContractDeployed` event, and nothing without one |
| Proxy.LaterLogsIgnored | src/commands/deployViaFactory.ts:96-98 | once a `ContractDeployed` event is found, logs after it cannot change the result |
| Proxy.ResolveProxy | src/commands/deployViaFactory.ts:91-117 | an event address wins; otherwise the registry's last entry; an empty registry or a failing query leaves the scan's result and only produces a notice |
| Proxy.ResolveProxyByVersion | src/commands/deployViaFactory.ts:195-209 | an event address wins; otherwise the registry's last entry, nothing for an empty registry, and a failing query fails the command |
| Commands.ConfirmAndSend | src/commands/set.ts:44-76 | the transaction is sent exactly when it could be estimated and priced and the user confirms, and it is the estimated one; a failed estimate fails with its error, fee data with no fee fails with the error the caller names for it, and a refusal exits with status 0 |
| Commands.SetImplementationCommand | src/commands/set.ts:20-89 | sent if and only if RPC, key and factory address resolve, `--gasless` is off, the estimate prices and the user confirms; the call is `setImplementation(hash(contractType), impl)` on the chain's factory; each guard's error in the order RPC, key, factory; `--gasless` then exits with status 1; otherwise the shared estimate-and-confirm tail, so a failed estimate fails with its error, fee data with no fee fails with the BigInt TypeError of the multiplication at set.ts:51, and a refusal exits with status 0 |
| Commands.InitData | src/commands/deployViaFactory.ts:32-38 | the interface's error comes first; then a missing name gives "Invalid fnSignature: <sig>"; otherwise the result is the encoder's, its error passed through |
| Commands.DeployViaFactoryCommand | src/commands/deployViaFactory.ts:16-123 | sent if and only if RPC, key, init data (strict pattern) and factory resolve, `--gasless` is off, the estimate prices and the user confirms; the call is `deployContract(owner, hash(contractType), initData)`; a failing guard gives its error in the order RPC, key, init data, factory; `--gasless` then exits with status 1; otherwise a failed estimate fails with its error, fee data with no fee fails with the BigInt TypeError of the multiplication at line 60, and a refusal exits with status 0 |
| Commands.DeployViaFactoryByVersionCommand | src/commands/deployViaFactory.ts:129-191 | sent if and only if RPC, key, init data (loose pattern) and factory resolve, the estimate prices and the user confirms; the call carries the version; a failing guard gives its error in the order RPC, key, init data, factory; otherwise a failed estimate fails with its error, fee data with no fee fails in `formatUnits(gasPrice, 'gwei')` (lines 167-171, which run before the multiplication at line 174) with the SDK's invalid-BigNumberish error, and a refusal exits with status 0; there is no gasless exit |
| Commands.DeployCommand | src/commands/deploy.ts:45-150 | a failed artifact load asks nothing and fails with its error; otherwise the constructor questions are asked before the RPC and key checks; the errors come in the order artifact, arguments, RPC, key; once all four pass, `--gasless` exits with status 1, and otherwise a failed estimate fails with its error, fee data with no fee fails with the BigInt TypeError of the multiplication at line 113, and a refusal exits with status 0; sent if and only if all pass, `--gasless` is off, the estimate prices and the user confirms, and what is sent is the estimated deployment |

## Left out

- Compilation (`npx hardhat compile`), spinners, console output and the
  display of costs in ether and gwei (floating point formatting) are not
  modelled; the one place where that display decides the outcome, the
  `formatUnits` call on a null fee that `deployViaFactoryByVersion` makes
  before multiplying, is modelled as the SDK error it throws.
- The directory walk is given as the list of files it visits in order;
  a directory whose name ends in `.json` and a file that is not valid JSON
  (both throw in the walk) are not modelled.
- `JSON.parse` of `--args` and of `fnArgsJson` is not modelled: `--args` is
  given as the parsed array, and a malformed `fnArgsJson` is one of the ways
  the init-data encoder may fail.
- `new ethers.Wallet(PRIVATE_KEY)` with a malformed key, `getAddress`, signing,
  ABI encoding (including a `version` outside `uint32`), `keccak256` and the
  SDK's log decoding are parameters or symbolic; the model assumes distinct
  type names hash differently.
- The chain id is a natural number; a non-numeric or negative `--chainId`
  is not modelled.
- `loadFirstArtifact` (src/commands/deploy.ts:157-178) is never called by the
  commands and is not modelled.
- The commented-out gasless path of src/commands/set.ts:91-108 and the unused
  `accessToken`/`clientKey`/`initializer` options are not modelled.
- The `receipt.logs` truthiness check and a null receipt are not modelled:
  the logs are a list.
- The contract name printed by `deploy` (src/commands/deploy.ts:56-59) is
  display only and not modelled.
- src/commands/create.ts, src/cli.ts and hardhat/scripts/deploy.ts are not
  part of this model; the `--contract` hint of `deploy` is modelled although
  src/cli.ts does not expose it.
- Commands.SetImplementationCommand, Commands.DeployViaFactoryCommand,
  Commands.DeployViaFactoryByVersionCommand, Commands.DeployCommand: the
  transaction's receipt and the deployed address are not part of the outcome;
  proxy recovery after a factory deployment is modelled separately by
  Proxy.ResolveProxy and Proxy.ResolveProxyByVersion.
- Coerce.ParseTupleArg: its own contract states only the number of values;
  which value each component gets is stated by Coerce.ParseTupleArgComponents.
