/** The SDK entry points of `applicationinsights.ts`: the module-level
    configuration, the default client's lifecycle and the chainable
    `Configuration` setters. The module state is a value threaded through the
    calls; each call returns the state it leaves. */
module ApplicationInsights {

  import opened Wrappers

  /** The arguments of `Channel.setUseDiskRetryCaching`. */
  datatype RetrySettings = RetrySettings(enabled: bool, resendInterval: Option<int>, maxBytesOnDisk: Option<int>)

  /** The default client, as far as the entry points concern it: the key it
      was created with (`None` when none was given) and the retry settings its
      channel was last given. */
  datatype DefaultClient = DefaultClient(instrumentationKey: Option<string>, retry: RetrySettings)

  /** The auto-collection switches. */
  datatype AutoCollect = AutoCollect(
    console: bool,
    consoleLog: bool,
    exceptions: bool,
    performance: bool,
    requests: bool,
    dependencies: bool,
    correlating: bool)

  datatype SdkState = SdkState(
    auto: AutoCollect,
    retry: RetrySettings,
    started: bool,
    client: Option<DefaultClient>)

  /** The state when the module is loaded. */
  const Initial: SdkState :=
    SdkState(AutoCollect(true, false, true, true, true, true, true), RetrySettings(true, None, None), false, None)

  /** Whatever the calls do, the SDK only counts as started with a default
      client, and that client's channel holds the retry settings last
      configured. */
  predicate Wellformed(s: SdkState) {
    && (s.started ==> s.client.Some?)
    && (s.client.Some? ==> s.client.value.retry == s.retry)
  }

  /** `setup(instrumentationKey)`: creates the default client unless there is
      one (a second call keeps the first key) and passes it the configured
      retry settings. */
  function Setup(s: SdkState, instrumentationKey: Option<string>): (r: SdkState)
    ensures r.client.Some? && r.client.value.retry == s.retry
    ensures r.client.value.instrumentationKey ==
      if s.client.Some? then s.client.value.instrumentationKey else instrumentationKey
    ensures r.auto == s.auto && r.retry == s.retry && r.started == s.started
    ensures Wellformed(s) ==> Wellformed(r)
  {
    var client := match s.client
      case None => DefaultClient(instrumentationKey, s.retry)
      case Some(c) => c.(retry := s.retry);
    s.(client := Some(client))
  }

  /** `start()`: has an effect only once there is a default client. */
  function Start(s: SdkState): (r: SdkState)
    ensures r.started <==> s.started || s.client.Some?
    ensures r.client == s.client && r.auto == s.auto && r.retry == s.retry
    ensures Wellformed(s) ==> Wellformed(r)
  {
    if s.client.Some? then s.(started := true) else s
  }

  /** `dispose()`: forgets the default client and stops; the configuration
      set so far survives. */
  function Dispose(s: SdkState): (r: SdkState)
    ensures r.client.None? && !r.started
    ensures r.auto == s.auto && r.retry == s.retry
    ensures Wellformed(r)
  {
    s.(client := None, started := false)
  }

  /** `Configuration.setAutoCollectConsole(value, collectConsoleLog)`: an
      omitted `collectConsoleLog` (`None`) switches console.log collection
      off. */
  function SetAutoCollectConsole(s: SdkState, value: bool, collectConsoleLog: Option<bool>): (r: SdkState)
    ensures r.auto.console == value
    ensures r.auto.consoleLog <==> collectConsoleLog == Some(true)
    ensures r.auto == s.auto.(console := r.auto.console, consoleLog := r.auto.consoleLog)
    ensures r.retry == s.retry && r.started == s.started && r.client == s.client
  {
    s.(auto := s.auto.(console := value, consoleLog := collectConsoleLog.GetOr(false)))
  }

  /** The setters of one switch each. Each changes that switch and nothing
      else. */
  function SetAutoCollectExceptions(s: SdkState, value: bool): (r: SdkState)
    ensures r.auto.exceptions == value && r.auto.(exceptions := s.auto.exceptions) == s.auto
    ensures r.retry == s.retry && r.started == s.started && r.client == s.client
  {
    s.(auto := s.auto.(exceptions := value))
  }

  function SetAutoCollectPerformance(s: SdkState, value: bool): (r: SdkState)
    ensures r.auto.performance == value && r.auto.(performance := s.auto.performance) == s.auto
    ensures r.retry == s.retry && r.started == s.started && r.client == s.client
  {
    s.(auto := s.auto.(performance := value))
  }

  function SetAutoCollectRequests(s: SdkState, value: bool): (r: SdkState)
    ensures r.auto.requests == value && r.auto.(requests := s.auto.requests) == s.auto
    ensures r.retry == s.retry && r.started == s.started && r.client == s.client
  {
    s.(auto := s.auto.(requests := value))
  }

  function SetAutoCollectDependencies(s: SdkState, value: bool): (r: SdkState)
    ensures r.auto.dependencies == value && r.auto.(dependencies := s.auto.dependencies) == s.auto
    ensures r.retry == s.retry && r.started == s.started && r.client == s.client
  {
    s.(auto := s.auto.(dependencies := value))
  }

  function SetAutoDependencyCorrelation(s: SdkState, value: bool): (r: SdkState)
    ensures r.auto.correlating == value && r.auto.(correlating := s.auto.correlating) == s.auto
    ensures r.retry == s.retry && r.started == s.started && r.client == s.client
  {
    s.(auto := s.auto.(correlating := value))
  }

  /** `Configuration.setUseDiskRetryCaching(value, resendInterval,
      maxBytesOnDisk)`: remembered for a later `setup`, and passed on at once
      to a default client that exists. */
  function SetUseDiskRetryCaching(s: SdkState, value: bool, resendInterval: Option<int>, maxBytesOnDisk: Option<int>)
    : (r: SdkState)
    ensures r.retry == RetrySettings(value, resendInterval, maxBytesOnDisk)
    ensures r.client.Some? <==> s.client.Some?
    ensures r.client.Some? ==> r.client.value == s.client.value.(retry := r.retry)
    ensures r.auto == s.auto && r.started == s.started
    ensures Wellformed(s) ==> Wellformed(r)
  {
    var retry := RetrySettings(value, resendInterval, maxBytesOnDisk);
    var client := match s.client
      case None => None
      case Some(c) => Some(c.(retry := retry));
    s.(retry := retry, client := client)
  }

  /** A second `setup` changes nothing. */
  lemma SetupIdempotent(s: SdkState, first: Option<string>, second: Option<string>)
    ensures Setup(Setup(s, first), second) == Setup(s, first)
  {
  }

  /** `start` before any `setup` does nothing. */
  lemma StartNeedsSetup(s: SdkState)
    requires s.client.None?
    ensures Start(s) == s
  {
  }

  /** After `dispose`, `setup` creates a new client with the new key and the
      retry settings configured before the dispose; it is not started. */
  lemma SetupAfterDispose(s: SdkState, key: Option<string>)
    ensures Setup(Dispose(s), key).client == Some(DefaultClient(key, s.retry))
    ensures !Setup(Dispose(s), key).started
  {
  }

  /** The default client ends up with the same retry settings whether they
      are configured before or after `setup`. */
  lemma RetryOrderIrrelevant(s: SdkState, key: Option<string>, value: bool, interval: Option<int>, maxBytes: Option<int>)
    ensures Setup(SetUseDiskRetryCaching(s, value, interval, maxBytes), key)
         == SetUseDiskRetryCaching(Setup(s, key), value, interval, maxBytes)
  {
  }

  /** The calls a program can make. */
  datatype Call =
    | SetupCall(key: Option<string>)
    | StartCall
    | DisposeCall
    | ConsoleCall(value: bool, collectConsoleLog: Option<bool>)
    | ExceptionsCall(value: bool)
    | PerformanceCall(value: bool)
    | RequestsCall(value: bool)
    | DependenciesCall(value: bool)
    | CorrelationCall(value: bool)
    | DiskRetryCall(value: bool, resendInterval: Option<int>, maxBytesOnDisk: Option<int>)

  function Apply(s: SdkState, call: Call): SdkState {
    match call
    case SetupCall(key) => Setup(s, key)
    case StartCall => Start(s)
    case DisposeCall => Dispose(s)
    case ConsoleCall(value, log) => SetAutoCollectConsole(s, value, log)
    case ExceptionsCall(value) => SetAutoCollectExceptions(s, value)
    case PerformanceCall(value) => SetAutoCollectPerformance(s, value)
    case RequestsCall(value) => SetAutoCollectRequests(s, value)
    case DependenciesCall(value) => SetAutoCollectDependencies(s, value)
    case CorrelationCall(value) => SetAutoDependencyCorrelation(s, value)
    case DiskRetryCall(value, interval, maxBytes) => SetUseDiskRetryCaching(s, value, interval, maxBytes)
  }

  function Run(s: SdkState, calls: seq<Call>): SdkState
    decreases |calls|
  {
    if calls == [] then s else Run(Apply(s, calls[0]), calls[1..])
  }

  lemma ApplyKeepsWellformed(s: SdkState, call: Call)
    requires Wellformed(s)
    ensures Wellformed(Apply(s, call))
  {
  }

  /** Every state a program can reach is well formed. */
  lemma {:induction false} RunKeepsWellformed(s: SdkState, calls: seq<Call>)
    requires Wellformed(s)
    ensures Wellformed(Run(s, calls))
    decreases |calls|
  {
    if calls != [] {
      ApplyKeepsWellformed(s, calls[0]);
      RunKeepsWellformed(Apply(s, calls[0]), calls[1..]);
    }
  }

  lemma ReachableWellformed(calls: seq<Call>)
    ensures Wellformed(Run(Initial, calls))
  {
    RunKeepsWellformed(Initial, calls);
  }
}
