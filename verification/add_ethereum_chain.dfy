/** The `wallet_addEthereumChain` request handler: ordered validation of the
    single parameter object, normalisation, the duplicate check, and the
    approve-then-commit sequence, ending the request exactly once.

    The handler is a pure function. Its collaborators are oracle functions
    supplied by the caller, and its observable behaviour is the trace of
    collaborator calls it makes, closed by the single `end` call. */
module AddEthereumChain {
  import opened Wrappers
  import opened JsValues
  import opened ChainParams
  import opened ChainIdFormat

  /** The approval-message type tag the handler attaches to its approval
      request (the enum that defines it is not part of this model). */
  const AddEthereumChainMessage: string := "wallet_addEthereumChain"

  /** What the handler asks the user-approval collaborator to confirm. */
  datatype ApprovalRequest = ApprovalRequest(origin: JsString, kind: string, requestData: ChainRequest)

  /** The injected collaborators. The approval token `T` is opaque to the
      handler; a rejected promise carries an arbitrary JavaScript value as its
      reason. */
  datatype Collaborators<!T> = Collaborators(
    origin: JsString,
    customRpcExistsWith: (JsValue, JsValue) -> bool,
    requestUserApproval: ApprovalRequest -> Result<T, JsValue>,
    addCustomRpc: T -> Result<(), JsValue>)

  /** The argument handed to `end`: `invalidParams` for a malformed request,
      the `internal` already-exists error carrying the caller's raw `rpcUrl`
      and `chainId`, or a collaborator's rejection reason passed on unchanged. */
  datatype RpcError =
    | InvalidParams(rejection: Rejection)
    | AlreadyExists(rpcUrl: JsValue, chainId: JsValue)
    | Propagated(reason: JsValue)

  /** One observable step of the handler. */
  datatype Event<T> =
    | CheckedExists(rpcUrl: JsValue, chainId: JsValue)
    | RequestedApproval(request: ApprovalRequest)
    | AddedCustomRpc(approval: T)
    | ResultSetNull
    | Ended(error: Option<RpcError>)

  /** The argument the request was ended with, if any. */
  function Outcome<T>(trace: seq<Event<T>>): Option<RpcError>
    requires |trace| > 0 && trace[|trace| - 1].Ended?
  {
    trace[|trace| - 1].error
  }

  /** Whether the `end` call reports an error. `end` is not part of this
      model; it is assumed to follow the callback convention, where a falsy
      argument counts as no error. The handler's own
      errors are error objects and therefore truthy; a propagated rejection is
      whatever value the collaborator rejected with. */
  predicate EndsWithError<T>(trace: seq<Event<T>>)
    requires |trace| > 0 && trace[|trace| - 1].Ended?
  {
    match Outcome(trace)
    case None => false
    case Some(e) => !e.Propagated? || Truthy(e.reason)
  }

  /** Whether the handler made a collaborator call of any kind. */
  predicate CalledCollaborator<T>(trace: seq<Event<T>>) {
    exists i :: 0 <= i < |trace| && (trace[i].CheckedExists? || trace[i].RequestedApproval? || trace[i].AddedCustomRpc?)
  }

  /** The handler. `params` is `req.params` as received. */
  function Handle<T>(params: JsValue, f: Foreign, c: Collaborators<T>): (trace: seq<Event<T>>)
    ensures |trace| > 0 && trace[|trace| - 1].Ended?
    ensures forall i :: 0 <= i < |trace| - 1 ==> !trace[i].Ended?
    ensures forall i :: 0 <= i < |trace| && trace[i].AddedCustomRpc? ==>
      && 0 < i
      && trace[i - 1].RequestedApproval?
      && c.requestUserApproval(trace[i - 1].request) == Success(trace[i].approval)
    ensures forall i, j :: 0 <= i < j < |trace| && trace[i].AddedCustomRpc? ==> !trace[j].AddedCustomRpc?
    ensures Outcome(trace).None? <==> ResultSetNull in trace
    ensures ResultSetNull in trace ==> !EndsWithError(trace)
  {
    var param := FirstElement(params);
    if !ShapeOk(param) then
      [Ended(Some(InvalidParams(Rejection(Params, params))))]
    else
      var raw := Destructure(param);
      match Validate(raw, f)
      case Failure(rejection) =>
        [Ended(Some(InvalidParams(rejection)))]
      case Success(data) =>
        if c.customRpcExistsWith(raw.rpcUrl, data.chainId) then
          [CheckedExists(raw.rpcUrl, data.chainId), Ended(Some(AlreadyExists(raw.rpcUrl, raw.chainId)))]
        else
          var ask := ApprovalRequest(c.origin, AddEthereumChainMessage, data);
          [CheckedExists(raw.rpcUrl, data.chainId), RequestedApproval(ask)] +
          match c.requestUserApproval(ask)
          case Failure(e) => [Ended(Some(Propagated(e)))]
          case Success(approval) =>
            [AddedCustomRpc(approval)] +
            match c.addCustomRpc(approval)
            case Failure(e) => [Ended(Some(Propagated(e)))]
            case Success(_) => [ResultSetNull, Ended(None)]
  }

  /** The destructured fields of the first parameter. */
  function RawOf(params: JsValue): RawParams {
    Destructure(FirstElement(params))
  }

  /** The request passes the shape check and every field check. */
  predicate WellFormed(params: JsValue, f: Foreign) {
    ShapeOk(FirstElement(params)) && Validate(RawOf(params), f).Success?
  }

  /** A missing, falsy or non-object first parameter is refused with
      `invalidParams` before any field is read, and no collaborator runs. */
  lemma MalformedParamsRejected<T>(params: JsValue, f: Foreign, c: Collaborators<T>)
    requires !Truthy(FirstElement(params)) || TypeOf(FirstElement(params)) != "object"
    ensures Handle(params, f, c) == [Ended(Some(InvalidParams(Rejection(Params, params))))]
    ensures !CalledCollaborator(Handle(params, f, c))
  {
  }

  /** In particular: no parameters, an empty array, or `[null]`. */
  lemma MissingParamsRejected<T>(f: Foreign, c: Collaborators<T>)
    ensures Outcome(Handle(Undefined, f, c)) == Some(InvalidParams(Rejection(Params, Undefined)))
    ensures Outcome(Handle(Arr([]), f, c)) == Some(InvalidParams(Rejection(Params, Arr([]))))
    ensures Outcome(Handle(Arr([Null]), f, c)) == Some(InvalidParams(Rejection(Params, Arr([Null]))))
  {
  }

  /** The first failing field check, in the order rpcUrl, chainId,
      networkName, ticker, blockExplorerUrl, decides the `invalidParams` error
      and its reported value, and neither the existence check nor any later
      collaborator runs. */
  lemma FirstFailingCheckDecides<T>(params: JsValue, f: Foreign, c: Collaborators<T>, i: nat)
    requires ShapeOk(FirstElement(params))
    requires i < |CheckOrder|
    requires !Accepts(CheckOrder[i], RawOf(params), f)
    requires forall j :: 0 <= j < i ==> Accepts(CheckOrder[j], RawOf(params), f)
    ensures Handle(params, f, c) ==
      [Ended(Some(InvalidParams(Rejection(CheckOrder[i], Received(CheckOrder[i], RawOf(params))))))]
    ensures !CalledCollaborator(Handle(params, f, c))
  {
    ValidateReportsFirstFailure(RawOf(params), f);
    assert FirstFailing(RawOf(params), f, 0).value == i;
  }

  /** A request with a bad `rpcUrl` is refused for its `rpcUrl`, whatever the
      other fields hold. */
  lemma BadRpcUrlDecides<T>(params: JsValue, f: Foreign, c: Collaborators<T>)
    requires ShapeOk(FirstElement(params))
    requires !f.isHttpsUri(Property(FirstElement(params), "rpcUrl"))
    ensures Handle(params, f, c) ==
      [Ended(Some(InvalidParams(Rejection(RpcUrl, Property(FirstElement(params), "rpcUrl")))))]
  {
  }

  /** `chainId` is judged in lower case: once `rpcUrl` is accepted, a string
      `chainId` is refused exactly when its lower-cased form fails the format
      predicate, and the refusal reports the value as the caller wrote it. */
  lemma ChainIdJudgedLowerCase<T>(params: JsValue, f: Foreign, c: Collaborators<T>, s: JsString)
    requires ShapeOk(FirstElement(params))
    requires Accepts(RpcUrl, RawOf(params), f)
    requires RawOf(params).chainId == Str(s)
    ensures Outcome(Handle(params, f, c)) == Some(InvalidParams(Rejection(ChainId, Str(s))))
        <==> !f.isPrefixedFormattedHexString(Str(Lower(s)))
  {
  }

  /** Assuming the format predicate rejects `false`, a `chainId` that is not a
      string is refused once `rpcUrl` is accepted. */
  lemma NonStringChainIdRejected<T>(params: JsValue, f: Foreign, c: Collaborators<T>)
    requires f.RejectsFalse()
    requires ShapeOk(FirstElement(params))
    requires Accepts(RpcUrl, RawOf(params), f)
    requires !RawOf(params).chainId.Str?
    ensures Handle(params, f, c) ==
      [Ended(Some(InvalidParams(Rejection(ChainId, RawOf(params).chainId))))]
  {
  }

  /** The lower-cased `chainId` is what the existence check and the approval
      request receive; the raw `rpcUrl` is passed through. */
  lemma LowerCaseChainIdForwarded<T>(params: JsValue, f: Foreign, c: Collaborators<T>, s: JsString)
    requires WellFormed(params, f)
    requires RawOf(params).chainId == Str(s)
    ensures Handle(params, f, c)[0] == CheckedExists(RawOf(params).rpcUrl, Str(Lower(s)))
    ensures !c.customRpcExistsWith(RawOf(params).rpcUrl, Str(Lower(s))) ==>
      && |Handle(params, f, c)| > 1
      && Handle(params, f, c)[1].RequestedApproval?
      && Handle(params, f, c)[1].request.requestData.chainId == Str(Lower(s))
  {
  }

  /** Once the earlier checks pass, `networkName` is refused exactly when it is
      not a non-empty string. */
  lemma NetworkNameAcceptedIff<T>(params: JsValue, f: Foreign, c: Collaborators<T>)
    requires ShapeOk(FirstElement(params))
    requires Accepts(RpcUrl, RawOf(params), f) && Accepts(ChainId, RawOf(params), f)
    ensures Outcome(Handle(params, f, c)) == Some(InvalidParams(Rejection(NetworkName, RawOf(params).networkName)))
        <==> !RawOf(params).networkName.Str? || |RawOf(params).networkName.s| == 0
  {
  }

  /** The approval request carries the first 100 UTF-16 code units of a longer
      `networkName`, and a shorter one unchanged. */
  lemma NetworkNameTruncated<T>(params: JsValue, f: Foreign, c: Collaborators<T>, name: JsString)
    requires WellFormed(params, f)
    requires RawOf(params).networkName == Str(name)
    requires !c.customRpcExistsWith(RawOf(params).rpcUrl, NormalizeChainId(RawOf(params).chainId))
    ensures |Handle(params, f, c)| > 1 && Handle(params, f, c)[1].RequestedApproval?
    ensures |name| > 100 ==> Handle(params, f, c)[1].request.requestData.networkName == name[..100]
    ensures |name| <= 100 ==> Handle(params, f, c)[1].request.requestData.networkName == name
  {
  }

  /** Once the earlier checks pass, `ticker` is refused exactly when it is not
      a string of 2 to 12 UTF-16 code units. */
  lemma TickerAcceptedIff<T>(params: JsValue, f: Foreign, c: Collaborators<T>)
    requires ShapeOk(FirstElement(params))
    requires Accepts(RpcUrl, RawOf(params), f) && Accepts(ChainId, RawOf(params), f)
    requires Accepts(NetworkName, RawOf(params), f)
    ensures Outcome(Handle(params, f, c)) == Some(InvalidParams(Rejection(Ticker, RawOf(params).ticker)))
        <==> !(RawOf(params).ticker.Str? && 2 <= |RawOf(params).ticker.s| <= 12)
  {
  }

  /** Once the earlier checks pass, an absent or `undefined`
      `blockExplorerUrl` reads as `null` and is accepted, and any other value
      is refused exactly when it is not an HTTPS URL. */
  lemma BlockExplorerUrlAcceptedIff<T>(params: JsValue, f: Foreign, c: Collaborators<T>)
    requires ShapeOk(FirstElement(params))
    requires Accepts(RpcUrl, RawOf(params), f) && Accepts(ChainId, RawOf(params), f)
    requires Accepts(NetworkName, RawOf(params), f) && Accepts(Ticker, RawOf(params), f)
    ensures Property(FirstElement(params), "blockExplorerUrl") == Undefined ==> WellFormed(params, f)
    ensures WellFormed(params, f) ==>
      Handle(params, f, c)[0].CheckedExists? && Outcome(Handle(params, f, c)) != Some(InvalidParams(Rejection(BlockExplorerUrl, RawOf(params).blockExplorerUrl)))
    ensures Outcome(Handle(params, f, c)) == Some(InvalidParams(Rejection(BlockExplorerUrl, RawOf(params).blockExplorerUrl)))
        <==> RawOf(params).blockExplorerUrl != Null && !f.isHttpsUri(RawOf(params).blockExplorerUrl)
  {
  }

  /** A well-formed request for a chain that is already registered ends with
      the `internal` already-exists error carrying the caller's raw `rpcUrl`
      and `chainId`; neither approval nor commit is asked for. */
  lemma DuplicateChainRefused<T>(params: JsValue, f: Foreign, c: Collaborators<T>)
    requires WellFormed(params, f)
    requires c.customRpcExistsWith(RawOf(params).rpcUrl, NormalizeChainId(RawOf(params).chainId))
    ensures Handle(params, f, c) == [
      CheckedExists(RawOf(params).rpcUrl, NormalizeChainId(RawOf(params).chainId)),
      Ended(Some(AlreadyExists(RawOf(params).rpcUrl, RawOf(params).chainId)))]
  {
  }

  /** The approval request a well-formed, new request leads to. */
  function ApprovalRequestOf(params: JsValue, f: Foreign, origin: JsString): ApprovalRequest
    requires WellFormed(params, f)
  {
    ApprovalRequest(origin, AddEthereumChainMessage, Validate(RawOf(params), f).value)
  }

  /** A rejected approval is passed to `end` unchanged, and nothing is
      committed. */
  lemma ApprovalRejectionPropagated<T>(params: JsValue, f: Foreign, c: Collaborators<T>, e: JsValue)
    requires WellFormed(params, f)
    requires !c.customRpcExistsWith(RawOf(params).rpcUrl, NormalizeChainId(RawOf(params).chainId))
    requires c.requestUserApproval(ApprovalRequestOf(params, f, c.origin)) == Failure(e)
    ensures Handle(params, f, c) == [
      CheckedExists(RawOf(params).rpcUrl, NormalizeChainId(RawOf(params).chainId)),
      RequestedApproval(ApprovalRequestOf(params, f, c.origin)),
      Ended(Some(Propagated(e)))]
  {
  }

  /** An approval is committed exactly once, with exactly the approval's
      result; a commit failure is passed to `end` unchanged, and a successful
      commit sets the result to `null` and ends without error. */
  lemma ApprovalCommitted<T>(params: JsValue, f: Foreign, c: Collaborators<T>, approval: T)
    requires WellFormed(params, f)
    requires !c.customRpcExistsWith(RawOf(params).rpcUrl, NormalizeChainId(RawOf(params).chainId))
    requires c.requestUserApproval(ApprovalRequestOf(params, f, c.origin)) == Success(approval)
    ensures |Handle(params, f, c)| > 2 && Handle(params, f, c)[2] == AddedCustomRpc(approval)
    ensures c.addCustomRpc(approval).Failure? ==>
      Handle(params, f, c)[3..] == [Ended(Some(Propagated(c.addCustomRpc(approval).error)))]
    ensures c.addCustomRpc(approval).Success? ==>
      Handle(params, f, c)[3..] == [ResultSetNull, Ended(None)]
  {
  }

  /** The request succeeds exactly when it is well-formed, new, approved, and
      the commit of that approval succeeds. */
  lemma SucceedsIff<T>(params: JsValue, f: Foreign, c: Collaborators<T>)
    ensures Outcome(Handle(params, f, c)).None? <==>
      && WellFormed(params, f)
      && !c.customRpcExistsWith(RawOf(params).rpcUrl, NormalizeChainId(RawOf(params).chainId))
      && c.requestUserApproval(ApprovalRequestOf(params, f, c.origin)).Success?
      && c.addCustomRpc(c.requestUserApproval(ApprovalRequestOf(params, f, c.origin)).value).Success?
  {
  }

  /** The collaborators with an existence check answered from `registry`,
      a set of (rpcUrl, chainId) pairs. */
  function WithRegistry<T>(c: Collaborators<T>, registry: set<(JsValue, JsValue)>): Collaborators<T>
  {
    c.(customRpcExistsWith := (u, id) => (u, id) in registry)
  }

  /** The (rpcUrl, chainId) pairs a trace commits, for collaborators whose
      approval token is the approved request data. */
  function Persisted(trace: seq<Event<ChainRequest>>): set<(JsValue, JsValue)> {
    set i | 0 <= i < |trace| && trace[i].AddedCustomRpc? :: (trace[i].approval.rpcUrl, trace[i].approval.chainId)
  }

  /** Sending the same request twice, with the registry updated by the first
      call's commit, succeeds the first time and is refused as a duplicate the
      second time — provided the approval collaborator resolves with the
      request data it was shown. */
  lemma RepeatedRequestConflicts(params: JsValue, f: Foreign, c: Collaborators<ChainRequest>, registry: set<(JsValue, JsValue)>)
    requires forall ask :: c.requestUserApproval(ask).Success? ==> c.requestUserApproval(ask).value == ask.requestData
    requires Outcome(Handle(params, f, WithRegistry(c, registry))).None?
    ensures WellFormed(params, f)
    ensures Outcome(Handle(params, f, WithRegistry(c, registry + Persisted(Handle(params, f, WithRegistry(c, registry)))))) ==
      Some(AlreadyExists(RawOf(params).rpcUrl, RawOf(params).chainId))
  {
    var first := Handle(params, f, WithRegistry(c, registry));
    SucceedsIff(params, f, WithRegistry(c, registry));
    var data := Validate(RawOf(params), f).value;
    ApprovalCommitted(params, f, WithRegistry(c, registry), data);
    assert (data.rpcUrl, data.chainId) in Persisted(first);
    DuplicateChainRefused(params, f, WithRegistry(c, registry + Persisted(first)));
  }

  /** A collaborator that rejects with a falsy reason (`Promise.reject()`
      gives `undefined`) makes `end(error)` indistinguishable from `end()`,
      although the result was never set. */
  lemma FalsyRejectionEndsWithoutError<T>(params: JsValue, f: Foreign, c: Collaborators<T>, reason: JsValue)
    requires WellFormed(params, f)
    requires !c.customRpcExistsWith(RawOf(params).rpcUrl, NormalizeChainId(RawOf(params).chainId))
    requires c.requestUserApproval(ApprovalRequestOf(params, f, c.origin)) == Failure(reason)
    requires !Truthy(reason)
    ensures !EndsWithError(Handle(params, f, c))
    ensures ResultSetNull !in Handle(params, f, c)
  {
  }

  /** The request ends without a reported error exactly when it is
      well-formed and new, and then either the approval and the commit both
      succeed, or one of them rejects with a falsy reason. */
  lemma EndsWithoutErrorIff<T>(params: JsValue, f: Foreign, c: Collaborators<T>)
    ensures !EndsWithError(Handle(params, f, c)) <==>
      && WellFormed(params, f)
      && !c.customRpcExistsWith(RawOf(params).rpcUrl, NormalizeChainId(RawOf(params).chainId))
      && match c.requestUserApproval(ApprovalRequestOf(params, f, c.origin))
         case Failure(reason) => !Truthy(reason)
         case Success(approval) =>
           match c.addCustomRpc(approval)
           case Failure(reason) => !Truthy(reason)
           case Success(_) => true
  {
  }

  /** `ticker.length` counts UTF-16 code units: a ticker of one character
      outside the Basic Multilingual Plane, such as an emoji, is two units long
      and passes the 2-to-12 check. */
  lemma AstralTickerAccepted<T>(params: JsValue, f: Foreign, c: Collaborators<T>, symbol: char)
    requires ShapeOk(FirstElement(params))
    requires Accepts(RpcUrl, RawOf(params), f) && Accepts(ChainId, RawOf(params), f)
    requires Accepts(NetworkName, RawOf(params), f)
    requires IsAstral(symbol) && RawOf(params).ticker == Str(Encode([symbol]))
    ensures |RawOf(params).ticker.s| == 2
    ensures Outcome(Handle(params, f, c)) != Some(InvalidParams(Rejection(Ticker, RawOf(params).ticker)))
  {
  }

  /** A parameter object with the four required fields and no block explorer. */
  function ParamObject(rpcUrl: JsValue, chainId: JsString, name: JsString, ticker: JsString): JsValue {
    Obj(map["rpcUrl" := rpcUrl, "chainId" := Str(chainId), "networkName" := Str(name), "ticker" := Str(ticker)])
  }

  /** For a parameter object whose other fields pass, the chain-id check alone
      decides: the lower-cased id reaches the existence check, or the id as
      written is reported. */
  lemma ChainIdDecidesParamObject<T>(f: Foreign, c: Collaborators<T>, rpcUrl: JsValue, chainId: JsString, name: JsString, ticker: JsString)
    requires f.isHttpsUri(rpcUrl)
    requires 0 < |name| && 2 <= |ticker| <= 12
    ensures f.isPrefixedFormattedHexString(Str(Lower(chainId))) ==>
      Handle(Arr([ParamObject(rpcUrl, chainId, name, ticker)]), f, c)[0] == CheckedExists(rpcUrl, Str(Lower(chainId)))
    ensures !f.isPrefixedFormattedHexString(Str(Lower(chainId))) ==>
      Handle(Arr([ParamObject(rpcUrl, chainId, name, ticker)]), f, c) == [Ended(Some(InvalidParams(Rejection(ChainId, Str(chainId)))))]
  {
  }

  /** The handler instantiated with the reference chain-id format: `0xA` is
      accepted and reaches the existence check as `0xa`, and `0x01` is
      refused with the value as written. */
  lemma ReferenceChainIdFormatInHandler<T>(isHttpsUri: JsValue -> bool, c: Collaborators<T>, rpcUrl: JsValue, name: JsString, ticker: JsString)
    requires isHttpsUri(rpcUrl)
    requires 0 < |name| && 2 <= |ticker| <= 12
    ensures Handle(Arr([ParamObject(rpcUrl, Encode("0xA"), name, ticker)]), Foreign(isHttpsUri, IsPrefixedFormattedHexValue), c)[0]
      == CheckedExists(rpcUrl, Str(Encode("0xa")))
    ensures Handle(Arr([ParamObject(rpcUrl, Encode("0x01"), name, ticker)]), Foreign(isHttpsUri, IsPrefixedFormattedHexValue), c)
      == [Ended(Some(InvalidParams(Rejection(ChainId, Str(Encode("0x01"))))))]
  {
    var f := Foreign(isHttpsUri, IsPrefixedFormattedHexValue);
    SampleChainIdsLowerCased();
    ChainIdDecidesParamObject(f, c, rpcUrl, Encode("0xA"), name, ticker);
    ChainIdDecidesParamObject(f, c, rpcUrl, Encode("0x01"), name, ticker);
  }
}
