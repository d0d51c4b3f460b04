/** The dispatch vocabulary shared by the stream, the dispatcher and the test adapter. */
module StreamTypes {
  import opened Wrappers
  import opened Json

  datatype StopReason =
    | NaturalStop | MaxTurns | UserInterrupt | BudgetExhausted | MemoryDegraded
    | CardVersionDrift | ToolPoolStale | SelfImproveLockBusy | Crash | DispatcherError

  function StopName(s: StopReason): string {
    match s
    case NaturalStop => "NaturalStop"
    case MaxTurns => "MaxTurns"
    case UserInterrupt => "UserInterrupt"
    case BudgetExhausted => "BudgetExhausted"
    case MemoryDegraded => "MemoryDegraded"
    case CardVersionDrift => "CardVersionDrift"
    case ToolPoolStale => "ToolPoolStale"
    case SelfImproveLockBusy => "SelfImproveLockBusy"
    case Crash => "Crash"
    case DispatcherError => "DispatcherError"
  }

  datatype ErrorCode =
    | ProviderRateLimited | ProviderAuthFailed | ProviderUnavailable | ProviderNetworkFailed
    | ContentFilterRefusal | ContextLengthExceeded | DispatcherRequestInvalid
    | DispatcherStreamUnsupported | DispatcherAdapterError

  function ErrorName(c: ErrorCode): string {
    match c
    case ProviderRateLimited => "ProviderRateLimited"
    case ProviderAuthFailed => "ProviderAuthFailed"
    case ProviderUnavailable => "ProviderUnavailable"
    case ProviderNetworkFailed => "ProviderNetworkFailed"
    case ContentFilterRefusal => "ContentFilterRefusal"
    case ContextLengthExceeded => "ContextLengthExceeded"
    case DispatcherRequestInvalid => "DispatcherRequestInvalid"
    case DispatcherStreamUnsupported => "DispatcherStreamUnsupported"
    case DispatcherAdapterError => "DispatcherAdapterError"
  }

  datatype Usage = Usage(inputTokens: int, outputTokens: int, cachedTokens: Option<int>)

  const NO_USAGE := Usage(0, 0, None)

  datatype EventKind = MessageStart | ContentBlockStart | ContentBlockDelta | ContentBlockEnd | MessageEnd

  function KindName(k: EventKind): (name: string)
    ensures name != "" && '\n' !in name
  {
    match k
    case MessageStart => "MessageStart"
    case ContentBlockStart => "ContentBlockStart"
    case ContentBlockDelta => "ContentBlockDelta"
    case ContentBlockEnd => "ContentBlockEnd"
    case MessageEnd => "MessageEnd"
  }

  /** An event: the fields the Runner reads, and the whole object as it goes on the wire. */
  datatype StreamEvent = StreamEvent(
    kind: EventKind,
    sequence: int,
    blockIndex: Option<int>,
    stopReason: Option<StopReason>,
    errorCode: Option<ErrorCode>,
    usage: Option<Usage>,
    body: Value)

  /** The fields of a request that the modelled code reads. */
  datatype Request = Request(
    sessionId: string,
    turnId: string,
    model: string,
    billingTag: string,
    correlationId: string,
    budgetCeilingTokens: int)
}
