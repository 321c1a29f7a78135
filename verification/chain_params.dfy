/** Destructuring, validation and normalisation of the single parameter object
    of an add-chain request: the pure part of the handler, from the shape check
    to the normalised request data. */
module ChainParams {
  import opened Wrappers
  import opened JsValues

  /** The two predicates the handler imports from outside its own file: the
      HTTPS-URL syntax check and the chain-id format check. Their definitions
      are not part of this model, so every operation takes them as inputs. */
  datatype Foreign = Foreign(
    isHttpsUri: JsValue -> bool,
    isPrefixedFormattedHexString: JsValue -> bool)
  {
    /** The chain-id check rejects the JavaScript value `false`, which is what
        the handler passes it for a non-string `chainId`. */
    predicate RejectsFalse() {
      !isPrefixedFormattedHexString(Bool(false))
    }
  }

  /** The request fields, and the parameter object itself, that a rejection
      can name. */
  datatype Field = Params | RpcUrl | ChainId | NetworkName | Ticker | BlockExplorerUrl

  /** An `invalidParams` error: the offending field and the value received for
      it, as the error message reproduces it. */
  datatype Rejection = Rejection(field: Field, received: JsValue)

  /** The five fields bound by destructuring the parameter object, with
      `blockExplorerUrl` already defaulted. */
  datatype RawParams = RawParams(
    chainId: JsValue,
    blockExplorerUrl: JsValue,
    networkName: JsValue,
    rpcUrl: JsValue,
    ticker: JsValue)

  /** The normalised request data handed to the existence check and to the
      approval request. */
  datatype ChainRequest = ChainRequest(
    chainId: JsValue,
    blockExplorerUrl: JsValue,
    networkName: JsString,
    rpcUrl: JsValue,
    ticker: JsString)

  /** Longest display name that is forwarded; longer names are cut, not refused. */
  const MaxNetworkNameLength: nat := 100
  /** Inclusive ticker length bounds, as the code compares them (the error text
      says 3-12). */
  const MinTickerLength: nat := 2
  const MaxTickerLength: nat := 12

  /** The shape check: `req.params[0]` must be truthy and of type 'object'. */
  predicate ShapeOk(param: JsValue) {
    Truthy(param) && TypeOf(param) == "object"
  }

  /** Exactly arrays and plain objects pass the shape check; `null`, although
      of type 'object', is falsy and does not. */
  lemma ShapeOkIffArrayOrObject(param: JsValue)
    ensures ShapeOk(param) <==> param.Arr? || param.Obj?
  {
  }

  /** The property names the handler destructures. */
  const FieldNames: set<string> := {"chainId", "blockExplorerUrl", "networkName", "rpcUrl", "ticker"}

  /** `const { chainId, blockExplorerUrl = null, networkName, rpcUrl, ticker } = param` */
  function Destructure(param: JsValue): (raw: RawParams)
    ensures raw.blockExplorerUrl != Undefined
  {
    RawParams(
      Property(param, "chainId"),
      PropertyOr(param, "blockExplorerUrl", Null),
      Property(param, "networkName"),
      Property(param, "rpcUrl"),
      Property(param, "ticker"))
  }

  /** Destructuring reads the five named properties and nothing else: two
      parameter objects that agree on those five names bind the same fields. */
  lemma DestructureReadsOnlyItsFields(m: map<string, JsValue>, m': map<string, JsValue>)
    requires forall k :: k in FieldNames ==> (k in m <==> k in m') && (k in m ==> m[k] == m'[k])
    ensures Destructure(Obj(m)) == Destructure(Obj(m'))
  {
  }

  /** An array, the only parameter other than a plain object that passes the
      shape check, has none of the five properties: every field is
      `undefined`, except `blockExplorerUrl`, which takes its default `null`. */
  lemma DestructureNonObject(param: JsValue)
    requires ShapeOk(param) && !param.Obj?
    ensures Destructure(param) == RawParams(Undefined, Null, Undefined, Undefined, Undefined)
  {
  }

  /** `typeof chainId === 'string' && chainId.toLowerCase()`: the lower-cased
      string, or `false` for anything that is not a string. */
  function NormalizeChainId(chainId: JsValue): (r: JsValue)
    ensures chainId.Str? ==> r.Str? && |r.s| == |chainId.s|
    ensures chainId.Str? ==> forall i :: 0 <= i < |r.s| ==> r.s[i] == LowerUnit(chainId.s[i])
    ensures !chainId.Str? ==> r == Bool(false)
  {
    if chainId.Str? then Str(Lower(chainId.s)) else Bool(false)
  }

  /** The forwarded display name: the first 100 UTF-16 code units of `name`,
      as `substring(0, 100)` takes them (a surrogate pair may be split). */
  function TruncateName(name: JsString): (r: JsString)
    ensures |r| <= MaxNetworkNameLength
    ensures r <= name
    ensures |name| <= MaxNetworkNameLength ==> r == name
    ensures |name| > MaxNetworkNameLength ==> |r| == MaxNetworkNameLength
  {
    if |name| > MaxNetworkNameLength then name[..MaxNetworkNameLength] else name
  }

  /** A name of more than 50 characters, all outside the Basic Multilingual
      Plane, is more than 100 code units long and is cut to exactly its first
      50 characters: the cut falls between surrogate pairs. */
  lemma {:induction false} AstralNameCutAtFiftyCharacters(name: string)
    requires |name| > 50
    requires forall i :: 0 <= i < |name| ==> IsAstral(name[i])
    ensures |Encode(name)| == 2 * |name|
    ensures TruncateName(Encode(name)) == Encode(name[..50])
  {
    AllAstralCount(name);
    AllAstralCount(name[..50]);
    assert name == name[..50] + name[50..];
    EncodeAppend(name[..50], name[50..]);
  }

  lemma {:induction false} AllAstralCount(s: string)
    requires forall i :: 0 <= i < |s| ==> IsAstral(s[i])
    ensures AstralCount(s) == |s|
  {
    if s != [] {
      AllAstralCount(s[1..]);
    }
  }

  /** The order in which the handler checks the fields. */
  const CheckOrder: seq<Field> := [RpcUrl, ChainId, NetworkName, Ticker, BlockExplorerUrl]

  /** Whether the check of one field accepts its value. Each check reads only
      its own field. */
  predicate Accepts(field: Field, raw: RawParams, f: Foreign) {
    match field
    case Params => true
    case RpcUrl => f.isHttpsUri(raw.rpcUrl)
    case ChainId => f.isPrefixedFormattedHexString(NormalizeChainId(raw.chainId))
    case NetworkName => raw.networkName.Str? && |raw.networkName.s| > 0
    case Ticker => raw.ticker.Str? && MinTickerLength <= |raw.ticker.s| <= MaxTickerLength
    case BlockExplorerUrl => raw.blockExplorerUrl == Null || f.isHttpsUri(raw.blockExplorerUrl)
  }

  /** The value a rejection of `field` reports: the caller's own value, before
      any normalisation. */
  function Received(field: Field, raw: RawParams): JsValue {
    match field
    case Params => Undefined
    case RpcUrl => raw.rpcUrl
    case ChainId => raw.chainId
    case NetworkName => raw.networkName
    case Ticker => raw.ticker
    case BlockExplorerUrl => raw.blockExplorerUrl
  }

  /** The position in `CheckOrder`, at or after `from`, of the first check that
      fails, if any. */
  function FirstFailing(raw: RawParams, f: Foreign, from: nat): (r: Option<nat>)
    requires from <= |CheckOrder|
    ensures r.Some? ==> from <= r.value < |CheckOrder| && !Accepts(CheckOrder[r.value], raw, f)
    ensures r.Some? ==> forall j :: from <= j < r.value ==> Accepts(CheckOrder[j], raw, f)
    ensures r.None? <==> forall j :: from <= j < |CheckOrder| ==> Accepts(CheckOrder[j], raw, f)
    decreases |CheckOrder| - from
  {
    if from == |CheckOrder| then None
    else if !Accepts(CheckOrder[from], raw, f) then Some(from)
    else FirstFailing(raw, f, from + 1)
  }

  /** The field checks of the handler, in source order, each returning on its
      first failure. */
  function Validate(raw: RawParams, f: Foreign): (r: Result<ChainRequest, Rejection>)
    ensures r.Success? ==> r.value.chainId == NormalizeChainId(raw.chainId)
    ensures r.Success? ==> raw.networkName.Str? && r.value.networkName == TruncateName(raw.networkName.s)
    ensures r.Success? ==> r.value.rpcUrl == raw.rpcUrl && r.value.blockExplorerUrl == raw.blockExplorerUrl
    ensures r.Success? ==> raw.ticker == Str(r.value.ticker)
  {
    if !f.isHttpsUri(raw.rpcUrl) then
      Failure(Rejection(RpcUrl, raw.rpcUrl))
    else if !f.isPrefixedFormattedHexString(NormalizeChainId(raw.chainId)) then
      Failure(Rejection(ChainId, raw.chainId))
    else if !raw.networkName.Str? || |raw.networkName.s| == 0 then
      Failure(Rejection(NetworkName, raw.networkName))
    else if !raw.ticker.Str? || |raw.ticker.s| < MinTickerLength || |raw.ticker.s| > MaxTickerLength then
      Failure(Rejection(Ticker, raw.ticker))
    else if raw.blockExplorerUrl != Null && !f.isHttpsUri(raw.blockExplorerUrl) then
      Failure(Rejection(BlockExplorerUrl, raw.blockExplorerUrl))
    else
      Success(ChainRequest(
        NormalizeChainId(raw.chainId),
        raw.blockExplorerUrl,
        TruncateName(raw.networkName.s),
        raw.rpcUrl,
        raw.ticker.s))
  }

  /** Validation fails exactly when some check fails, and then it reports the
      FIRST failing check in `CheckOrder`, with the caller's original value. */
  lemma ValidateReportsFirstFailure(raw: RawParams, f: Foreign)
    ensures Validate(raw, f).Failure? <==> FirstFailing(raw, f, 0).Some?
    ensures Validate(raw, f).Failure? ==>
      var i := FirstFailing(raw, f, 0).value;
      Validate(raw, f).error == Rejection(CheckOrder[i], Received(CheckOrder[i], raw))
  {
  }

  /** A failing check decides the rejection whatever the LATER fields hold:
      two parameter sets that agree on the fields checked up to and including
      the failing one are rejected identically. */
  lemma EarlierCheckDecides(raw: RawParams, raw': RawParams, f: Foreign, i: nat)
    requires i < |CheckOrder|
    requires forall j :: 0 <= j <= i ==> Received(CheckOrder[j], raw') == Received(CheckOrder[j], raw)
    requires !Accepts(CheckOrder[i], raw, f)
    requires forall j :: 0 <= j < i ==> Accepts(CheckOrder[j], raw, f)
    ensures Validate(raw', f) == Validate(raw, f) == Failure(Rejection(CheckOrder[i], Received(CheckOrder[i], raw)))
  {
    assert forall j :: 0 <= j <= i ==> Accepts(CheckOrder[j], raw', f) == Accepts(CheckOrder[j], raw, f);
    ValidateReportsFirstFailure(raw, f);
    ValidateReportsFirstFailure(raw', f);
  }
}
