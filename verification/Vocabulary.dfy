/** The closed telemetry vocabularies: every value that can reach the wire. */
module Vocabulary {
  import opened Basics

  datatype Host = Apex | Ally | Uptime | UsCentral1 | UsEast4 | EuropeWest4 | Control | Custom

  datatype AttemptOutcome = Ok | HttpError | TransportError | Timeout | StreamBroken | Aborted

  datatype FinalOutcome = Final(outcome: AttemptOutcome) | Exhausted

  datatype ErrorClass =
    | Dns | Tls | ConnectRefused | ConnectTimeout | ConnectError | ReadTimeout | WriteTimeout
    | PoolTimeout | ProtocolError | Reset | IoError | ProxyError | StreamStalled | Unknown

  datatype Endpoint =
    | ChatCompletions | Messages | Responses | Embeddings | Images | Videos | Models | Fusion
    | ControlOther | InferenceOther

  datatype TimeoutPhase = NoPhase | Connect | FirstByte | Idle | WholeCall

  datatype HttpStatusClass = NoStatus | Success | ClientError | RateLimited | ServerError

  datatype LatencyBucket =
    | Lt100 | Lt200 | Lt400 | Lt800 | Lt1600 | Lt3200 | Lt6400 | Lt12800 | Lt25600 | Lt51200
    | Lt102400 | Ge102400

  datatype ErrorSource = FromRouter | FromProvider | FromUnknown

  datatype ShouldRetry = RetryTrue | RetryFalse | RetryAbsent

  datatype Level = AttemptLevel | RequestLevel

  /** The ten-field counter key: everything but the counts and histograms. */
  datatype CounterKey = CounterKey(
    level: Level,
    endpoint: Endpoint,
    streaming: bool,
    host: Host,
    outcome: AttemptOutcome,
    errorClass: Option<ErrorClass>,
    httpStatusClass: HttpStatusClass,
    timeoutPhase: TimeoutPhase,
    timeoutFloorMet: bool,
    providerPinned: bool)
}
