# add-ethereum-chain request handler, in Dafny

This project models the MetaMask extension's handler for the
`wallet_addEthereumChain` RPC method (`addEthereumChainHandler`). A web page
asks the wallet to add a custom network. The handler does four things:

1. It checks the untrusted single parameter object in a fixed order: the
   shape check, then `rpcUrl`, `chainId`, `networkName`, `ticker` and
   `blockExplorerUrl`. The first failure wins.
2. It normalises the request. `chainId` is lower-cased and `networkName` is
   cut to 100 UTF-16 code units.
3. It asks the existence checker whether the chain is already registered.
4. It asks the user for approval, commits the approval's result, and ends
   the request exactly once.

The modules are:

- `Wrappers`: `Option` and `Result`. A `Result` is also how a settled promise
  is modelled.
- `JsValues`: the JavaScript value semantics the handler relies on. Strings
  are sequences of UTF-16 code units, so `.length` and `substring` count
  what JavaScript counts. `Encode` turns text into such a string, with a
  surrogate pair for every character outside the Basic Multilingual Plane.
  The module also covers `typeof`, truthiness, `params?.[0]`, destructuring
  with a default, and ASCII-only `toLowerCase`.
- `ChainParams`: destructuring, the ordered field checks, and normalisation.
  It also holds `FirstFailing`, a declarative "first failing check" reading
  that the if-chain is proved against.
- `ChainIdFormat`: a reference definition of the chain-id format described by
  the handler's error message. It shows one way the foreign predicate can be
  instantiated.
- `AddEthereumChain`: the handler itself (`Handle`) and the properties proved
  about it.

The handler is a pure function. Its collaborators are given to it as functions:

- `customRpcExistsWith`
- `requestUserApproval`, which returns a `Result`
- `addCustomRpc`, which returns a `Result`
- `origin`

The two imported predicates, `validUrl.isHttpsUri` and
`isPrefixedFormattedHexString`, are passed in the same way, through the
`Foreign` datatype. `Handle` returns the trace of what the handler did:

- `CheckedExists`, `RequestedApproval` and `AddedCustomRpc` for the
  collaborator calls
- `ResultSetNull` for `res.result = null`
- `Ended(error)` for the single `end` call, with the argument it was given

A collaborator's rejection reason is an arbitrary JavaScript value, and it is
passed to `end` unchanged. A collaborator that rejects with a falsy value,
say `undefined`, makes `end` receive the falsy reason, and the result is never
set. How `end` reads a falsy argument is decided outside the handler; the
model's reading of it is an assumption listed under "Left out".

## Behaviour of the code worth knowing

- Only `req.params[0]` is read, and any further parameters are ignored. Any
  truthy value of type `'object'` passes the shape check, so arrays pass as
  well as plain objects (`ShapeOkIffArrayOrObject`). An array then yields
  only undefined fields (`DestructureNonObject`).
- A non-string `chainId` is not refused directly. The handler passes the
  value `false` to the format predicate (line 44). The refusal is proved
  under the explicit assumption `Foreign.RejectsFalse`
  (`NonStringChainIdRejected`).
- The `data` of the already-exists error holds the raw `rpcUrl` and the raw,
  not lower-cased, `chainId` (line 93).
- `ticker` is accepted for lengths 2 to 12 inclusive, as the comparison at
  line 73 is written, although the message at line 76 says "3-12".
- Lengths count UTF-16 code units. A one-emoji ticker has length 2 and is
  accepted (`AstralTickerAccepted`). A name of 60 emoji is 120 units long
  and is cut to its first 50 emoji (`AstralNameCutAtFiftyCharacters`).
- The error messages at lines 23, 39, 48, 65, 76 and 84 interpolate the
  received value into a template literal, which converts it to a string. A
  page can send a value whose conversion throws, such as
  `networkName: {"toString": 1}` with a well-formed `rpcUrl` and `chainId`, or
  `blockExplorerUrl: {"toString": 1}` in an otherwise valid request. The
  template literal then throws outside the `try`, `end` is never called, and
  the request never ends.

## Model

| member | source | states |
|---|---|---|
| JsValues.Encode | app/scripts/lib/rpc-method-middleware/handlers/add-ethereum-chain.js:73 | a string's `.length` is its number of characters plus one for each character outside the Basic Multilingual Plane |
| JsValues.Lower | app/scripts/lib/rpc-method-middleware/handlers/add-ethereum-chain.js:44 | `toLowerCase` keeps the length, leaves every non-upper-case character in place and maps each upper-case letter to its lower-case letter; no upper-case letter remains |
| JsValues.LowerIdempotent | app/scripts/lib/rpc-method-middleware/handlers/add-ethereum-chain.js:44 | lower-casing an already lower-cased chain id changes nothing |
| JsValues.LowerFixesLowerCase | app/scripts/lib/rpc-method-middleware/handlers/add-ethereum-chain.js:44 | a string without upper-case letters is its own lower-case form |
| ChainParams.ShapeOkIffArrayOrObject | app/scripts/lib/rpc-method-middleware/handlers/add-ethereum-chain.js:20 | the shape check admits exactly arrays and plain objects; `null`, `undefined`, strings, numbers, booleans and functions are refused |
| ChainParams.DestructureReadsOnlyItsFields | app/scripts/lib/rpc-method-middleware/handlers/add-ethereum-chain.js:28-34 | two parameter objects that agree on `chainId`, `blockExplorerUrl`, `networkName`, `rpcUrl` and `ticker` bind the same fields; every other property is ignored |
| ChainParams.DestructureNonObject | app/scripts/lib/rpc-method-middleware/handlers/add-ethereum-chain.js:28-34 | an array, the only parameter other than a plain object that passes the shape check, binds every field to undefined, except `blockExplorerUrl`, which defaults to null |
| ChainParams.NormalizeChainId | app/scripts/lib/rpc-method-middleware/handlers/add-ethereum-chain.js:44 | a string `chainId` becomes its lower-cased form, character by character and of equal length; anything else becomes `false` |
| ChainParams.TruncateName | app/scripts/lib/rpc-method-middleware/handlers/add-ethereum-chain.js:69-70 | the forwarded name is a prefix of the given name, at most 100 UTF-16 code units long; it equals the name when the name has 100 units or fewer, and has exactly 100 units otherwise |
| ChainParams.AstralNameCutAtFiftyCharacters | app/scripts/lib/rpc-method-middleware/handlers/add-ethereum-chain.js:69-70 | a name of more than 50 emoji-range characters counts two units per character and is cut to exactly its first 50 characters |
| ChainParams.FirstFailing | app/scripts/lib/rpc-method-middleware/handlers/add-ethereum-chain.js:36-87 | the declarative reading of the check order: the least position whose check fails, with every earlier check passing; none exactly when all checks pass |
| ChainParams.Validate | app/scripts/lib/rpc-method-middleware/handlers/add-ethereum-chain.js:36-87 | accepted data carries the normalised chain id, the truncated name, and the caller's `rpcUrl`, `blockExplorerUrl` and ticker string |
| ChainParams.ValidateReportsFirstFailure | app/scripts/lib/rpc-method-middleware/handlers/add-ethereum-chain.js:36-87 | validation fails exactly when some check fails, and it reports the first failing check in the order rpcUrl, chainId, networkName, ticker, blockExplorerUrl, with the caller's original value |
| ChainParams.EarlierCheckDecides | app/scripts/lib/rpc-method-middleware/handlers/add-ethereum-chain.js:36-87 | a failing check decides the rejection whatever the later fields hold |
| ChainIdFormat.DigitValue | app/scripts/lib/rpc-method-middleware/handlers/add-ethereum-chain.js:48 | a hex digit's value is below 16 and is zero only for `0` |
| ChainIdFormat.FormattedHexIsNonZero | app/scripts/lib/rpc-method-middleware/handlers/add-ethereum-chain.js:48 | a chain id of the reference format denotes a positive number ("non-zero") |
| ChainIdFormat.LeadingNonZeroDigitIsPositive | app/scripts/lib/rpc-method-middleware/handlers/add-ethereum-chain.js:48 | hex digits without a leading zero ("unpadded") denote a positive number |
| ChainIdFormat.FormattedHexIsLowerCase | app/scripts/lib/rpc-method-middleware/handlers/add-ethereum-chain.js:44-48 | a well-formed chain id is unchanged by the lower-casing that precedes the check |
| ChainIdFormat.SampleChainIds | app/scripts/lib/rpc-method-middleware/handlers/add-ethereum-chain.js:44-48 | `0x1` passes; `0x01`, `0x0` and `1` fail |
| ChainIdFormat.SampleChainIdsLowerCased | app/scripts/lib/rpc-method-middleware/handlers/add-ethereum-chain.js:44-48 | judged after lower-casing, `0xA` passes as `0xa` and `0xG` fails as `0xg`; `0x01` is unchanged by lower-casing and fails |
| AddEthereumChain.Handle | app/scripts/lib/rpc-method-middleware/handlers/add-ethereum-chain.js:13-117 | every path calls `end` exactly once, as its last step; `addCustomRpc` runs at most once, right after an approval request that succeeded, with exactly that approval's result; `end` is called without an argument exactly when the result was set to null, and then reports no error |
| AddEthereumChain.MalformedParamsRejected | app/scripts/lib/rpc-method-middleware/handlers/add-ethereum-chain.js:20-26 | a missing, falsy or non-object first parameter ends with `invalidParams` and no collaborator is called |
| AddEthereumChain.MissingParamsRejected | app/scripts/lib/rpc-method-middleware/handlers/add-ethereum-chain.js:20-26 | absent params, an empty params array and `[null]` are all refused as `invalidParams` |
| AddEthereumChain.FirstFailingCheckDecides | app/scripts/lib/rpc-method-middleware/handlers/add-ethereum-chain.js:36-87 | the first failing field check decides the `invalidParams` error and its reported value, and no collaborator runs |
| AddEthereumChain.BadRpcUrlDecides | app/scripts/lib/rpc-method-middleware/handlers/add-ethereum-chain.js:36-42 | a bad `rpcUrl` yields the rpcUrl error whatever the other fields hold |
| AddEthereumChain.ChainIdJudgedLowerCase | app/scripts/lib/rpc-method-middleware/handlers/add-ethereum-chain.js:44-51 | a string `chainId` is refused exactly when its lower-cased form fails the format predicate, and the refusal reports the original spelling |
| AddEthereumChain.NonStringChainIdRejected | app/scripts/lib/rpc-method-middleware/handlers/add-ethereum-chain.js:44-51 | if the format predicate rejects `false`, a non-string `chainId` is refused |
| AddEthereumChain.LowerCaseChainIdForwarded | app/scripts/lib/rpc-method-middleware/handlers/add-ethereum-chain.js:89-104 | the existence check and the approval request both receive the lower-cased `chainId` |
| AddEthereumChain.NetworkNameAcceptedIff | app/scripts/lib/rpc-method-middleware/handlers/add-ethereum-chain.js:62-68 | `networkName` is refused exactly when it is not a non-empty string |
| AddEthereumChain.NetworkNameTruncated | app/scripts/lib/rpc-method-middleware/handlers/add-ethereum-chain.js:69-70 | the approval request carries the first 100 UTF-16 code units of a longer name, and a shorter name unchanged |
| AddEthereumChain.TickerAcceptedIff | app/scripts/lib/rpc-method-middleware/handlers/add-ethereum-chain.js:72-79 | `ticker` is refused exactly when it is not a string of 2 to 12 UTF-16 code units |
| AddEthereumChain.AstralTickerAccepted | app/scripts/lib/rpc-method-middleware/handlers/add-ethereum-chain.js:73 | a ticker of one emoji-range character is two units long and passes the ticker check |
| AddEthereumChain.BlockExplorerUrlAcceptedIff | app/scripts/lib/rpc-method-middleware/handlers/add-ethereum-chain.js:81-87 | an absent `blockExplorerUrl` is accepted as null; `null` is never refused; any other value is refused exactly when it is not an HTTPS URL |
| AddEthereumChain.DuplicateChainRefused | app/scripts/lib/rpc-method-middleware/handlers/add-ethereum-chain.js:89-96 | an already-registered chain ends with the internal error carrying the raw `rpcUrl` and `chainId`; neither approval nor commit is asked for |
| AddEthereumChain.ApprovalRejectionPropagated | app/scripts/lib/rpc-method-middleware/handlers/add-ethereum-chain.js:98-115 | a rejected approval is passed to `end` unchanged and nothing is committed |
| AddEthereumChain.ApprovalCommitted | app/scripts/lib/rpc-method-middleware/handlers/add-ethereum-chain.js:98-116 | a granted approval is committed with exactly its result; a commit error reaches `end` unchanged; a successful commit sets the result to null and ends without error |
| AddEthereumChain.SucceedsIff | app/scripts/lib/rpc-method-middleware/handlers/add-ethereum-chain.js:89-116 | the request succeeds exactly when it is well-formed and new, the approval is granted and the commit succeeds |
| AddEthereumChain.FalsyRejectionEndsWithoutError | app/scripts/lib/rpc-method-middleware/handlers/add-ethereum-chain.js:113-116 | an approval rejected with a falsy reason reaches `end` as that falsy reason, read as no error under the assumed callback convention, although the result was never set |
| AddEthereumChain.EndsWithoutErrorIff | app/scripts/lib/rpc-method-middleware/handlers/add-ethereum-chain.js:98-116 | the request ends with no reported error exactly when it is well-formed and new and either approval and commit both succeed or one of them rejects with a falsy reason, under the assumed callback convention for `end` |
| AddEthereumChain.RepeatedRequestConflicts | app/scripts/lib/rpc-method-middleware/handlers/add-ethereum-chain.js:89-116 | once a request has succeeded and the registry holds what it committed, the same request is refused as already existing; this assumes the approval resolves with the request data it was shown |
| AddEthereumChain.ChainIdDecidesParamObject | app/scripts/lib/rpc-method-middleware/handlers/add-ethereum-chain.js:44-51 | for a parameter object whose other fields pass, the lower-cased id reaches the existence check, or the id as written is reported |
| AddEthereumChain.ReferenceChainIdFormatInHandler | app/scripts/lib/rpc-method-middleware/handlers/add-ethereum-chain.js:44-51 | with the reference format predicate, `0xA` is accepted and reaches the existence check as `0xa`, and `0x01` is refused, reporting `0x01` |

## Left out

- The HTTPS-URL predicate (`validUrl.isHttpsUri`) and the chain-id format
  predicate (`isPrefixedFormattedHexString`) are not part of this model. The
  handler takes them as function-valued inputs. `ChainIdFormat` gives a
  reference reading of the format, based on the handler's error message.
  `ReferenceChainIdFormatInHandler` instantiates the handler with it.
- Whether `isPrefixedFormattedHexString(false)` is false cannot be seen from
  the handler. `NonStringChainIdRejected` takes it as a hypothesis.
- Error message strings, and the JavaScript string coercion of the received
  values, are not modelled. An error is modelled as its kind, the offending
  field and the received value.
- The `eth-json-rpc-errors` object layout (codes, message, stack) is left
  out, apart from the error kind and the `data` of the already-exists error.
- The value of `MESSAGE_TYPE.ADD_ETHEREUM_CHAIN` is not part of this model,
  because the enum file is not shown. It is modelled as the constant label
  `"wallet_addEthereumChain"`.
- Promise scheduling and the race between the existence check and the commit
  are not modelled. Collaborator results are given as pure functions of their
  arguments. A collaborator that never settles, and so hangs the request, is
  not modelled either.
- AddEthereumChain.Handle: the imported predicates (lines 36, 45, 81) and
  `customRpcExistsWith` (line 89) are called outside the `try` at lines
  98-115. If one of them threw, the handler's promise would reject and `end`
  would never be called. The same happens when converting a received value to
  a string for the error messages at lines 23, 39, 48, 65, 76 and 84 throws.
  The model takes the predicates as total functions that never throw and
  assumes every such string conversion succeeds; "`end` is called exactly
  once" holds under these assumptions.
- AddEthereumChain.FalsyRejectionEndsWithoutError: `end` is the middleware's
  callback and is not part of this model. The model assumes it follows the
  usual callback convention, where a falsy argument means no error
  (`EndsWithError`). This lemma, `EndsWithoutErrorIff` and the `Handle`
  ensures about `EndsWithError` hold under that assumption. The handler itself
  only promises which value reaches `end`.
- Only ASCII letters are lower-cased. The full Unicode case mapping of
  `toLowerCase` is not modelled.
- JavaScript numbers are integers in the model. NaN is not represented. It
  would matter for the truthiness of a numeric first parameter, which is
  refused anyway, and for a collaborator that rejects with NaN
  (`Promise.reject(NaN)`), a falsy reason that `EndsWithError` should read as
  no error. `Num(0)` already stands for a falsy numeric reason, so the falsy
  case is covered by the model all the same.
- Property names are Dafny strings rather than UTF-16 strings. Only the
  five ASCII names the handler destructures, and `"0"`, are ever looked up.
- The model reads own properties only. JavaScript destructuring also reads
  inherited properties, but no prototype of a JSON-decoded value carries any
  of the five names, so nothing is lost. Array elements are not among the
  five names either, so an array given as the parameter object yields only
  undefined fields.
- The commented-out default-network check and the chain-id cross-check TODO
  (lines 53-60) are not behaviour and are not modelled.
- The timeout-bounded fetch helper (shared/modules/fetch-with-timeout.js) is
  not part of this model. It is network and timer plumbing around
  `window.fetch` with memoisation.
