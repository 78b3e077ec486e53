/** The backend's Docker monitor (src-tauri/src/modules/docker.rs): the one
  * `DockerStatus` record that the monitoring loop, the connection attempt,
  * the health check, the event stream and the update checks rewrite.
  *
  * Every transition is a pure function of the state and of what the outside
  * world answered. The clock is one abstract `now` in milliseconds, the
  * Docker client handle is the flag `hasClient`, and the results of network
  * probes, pings and container listings are parameters. */
module DockerBackend {
  import opened Wrappers
  import opened Strings
  import opened Versions
  import opened DesktopVersion

  /** Engine details reported by the Docker daemon. */
  datatype DockerVersion = DockerVersion(version: string, apiVersion: string, os: string, arch: string)

  /** The status record shown to the front end. Timestamps are abstract. */
  datatype DockerStatus = DockerStatus(
    isRunning: bool,
    engineVersion: Option<DockerVersion>,
    desktopVersion: Option<string>,
    engineUpdateAvailable: Option<bool>,
    desktopUpdateAvailable: Option<bool>,
    error: Option<string>,
    containerCount: Option<int>,
    lastChecked: Option<nat>)

  datatype DockerError =
    | NotRunning
    | StartingUp
    | Timeout
    | ConnectionLost
    | Restarting
    | ConnectionFailed(detail: string)

  /** Intervals in milliseconds. */
  datatype MonitoringConfig = MonitoringConfig(
    retryIntervalMs: nat,
    healthCheckIntervalMs: nat,
    updateCheckIntervalMs: nat,
    connectionTimeoutMs: nat,
    maxRetries: nat)

  /** `DockerState` without the channel and the HTTP client. */
  datatype DockerState = DockerState(
    hasClient: bool,
    status: DockerStatus,
    config: MonitoringConfig,
    retryCount: nat,
    lastUpdateCheck: Option<nat>)

  const InitializingMessage: string := "Initializing..."
  const NotRespondingMessage: string := "Docker is not responding"
  const TimeoutMessage: string := "Docker connection timeout"
  const ReconnectingMessage: string := "Connection lost, attempting to reconnect..."
  const UnknownField: string := "Unknown"
  const VersionUnavailableMessage: string := "Docker version not available"

  const I32_MIN: int := -0x8000_0000
  const I32_MAX: int := 0x7FFF_FFFF

  /** The backoff unit and the largest exponent of the retry delay. */
  const BackoffUnitMs: nat := 500
  const MaxBackoffExponent: nat := 3

  function DefaultConfig(): MonitoringConfig
  {
    MonitoringConfig(1000, 30000, 3600000, 5000, 3)
  }

  /** `DockerState::new()`: no client, not running, "Initializing...". */
  function InitialState(): (st: DockerState)
    ensures !st.status.isRunning && st.status.error == Some(InitializingMessage)
    ensures st.status.engineVersion.None? && st.status.desktopVersion.None?
    ensures st.status.engineUpdateAvailable.None? && st.status.desktopUpdateAvailable.None?
    ensures st.status.containerCount.None? && st.status.lastChecked.None?
    ensures !st.hasClient && st.retryCount == 0 && st.lastUpdateCheck.None?
    ensures st.config == DefaultConfig()
  {
    DockerState(
      false,
      DockerStatus(false, None, None, None, None, Some(InitializingMessage), None, None),
      DefaultConfig(), 0, None)
  }

  /** The six texts a failed connection can leave in the record. */
  const ConnectErrorMessages: set<string> := {
    "Docker is not running", "Docker is starting up", TimeoutMessage,
    "Docker connection lost", "Docker is restarting", "Docker connection failed"}

  /** The message the monitoring loop stores for a failed connection. */
  function ErrorMessage(e: DockerError): (m: string)
    ensures m in ConnectErrorMessages
  {
    match e
    case NotRunning => "Docker is not running"
    case StartingUp => "Docker is starting up"
    case Timeout => TimeoutMessage
    case ConnectionLost => "Docker connection lost"
    case Restarting => "Docker is restarting"
    case ConnectionFailed(_) => "Docker connection failed"
  }

  /** The error kinds, with the payload of `ConnectionFailed` forgotten. */
  function ErrorKind(e: DockerError): nat
  {
    match e
    case NotRunning => 0
    case StartingUp => 1
    case Timeout => 2
    case ConnectionLost => 3
    case Restarting => 4
    case ConnectionFailed(_) => 5
  }

  /** The message depends on the kind of error only: every failure detail
    * gives the same text, and different kinds give different texts. */
  lemma ErrorMessageByKind(a: DockerError, b: DockerError)
    ensures ErrorMessage(a) == ErrorMessage(b) <==> ErrorKind(a) == ErrorKind(b)
  {
    if ErrorKind(a) != ErrorKind(b) {
      var ma, mb := ErrorMessage(a), ErrorMessage(b);
      assert |ma| != |mb| || ma[7] != mb[7] || ma[|ma| - 1] != mb[|mb| - 1];
    }
  }

  /** Every message a status record can carry. */
  predicate KnownError(m: string)
  {
    || m == InitializingMessage
    || m == NotRespondingMessage
    || m == ReconnectingMessage
    || m in ConnectErrorMessages
  }

  /** `n as i32`: two's-complement truncation to 32 bits. */
  function AsI32(n: nat): (r: int)
    ensures I32_MIN <= r <= I32_MAX
    ensures n <= I32_MAX ==> r == n
    ensures (n - r) % 0x1_0000_0000 == 0
  {
    var low := n % 0x1_0000_0000;
    if low <= I32_MAX then low else low - 0x1_0000_0000
  }

  /** `u32::saturating_add(1)`. */
  function SatInc(n: nat): (r: nat)
    requires n <= U32_MAX
    ensures r <= U32_MAX
    ensures n < U32_MAX ==> r == n + 1
    ensures n == U32_MAX ==> r == n
  {
    if n < U32_MAX then n + 1 else n
  }

  function Pow2(k: nat): (p: nat)
    ensures p >= 1
  {
    if k == 0 then 1 else 2 * Pow2(k - 1)
  }

  /** The sleep after a failed retry, in milliseconds: the short delay once
    * `max_retries` is reached, exponential backoff capped at 2^3 before. */
  function RetryDelayMs(count: nat, maxRetries: nat): (d: nat)
    ensures BackoffUnitMs <= d <= 8 * BackoffUnitMs
    ensures count >= maxRetries ==> d == BackoffUnitMs
  {
    if count >= maxRetries then BackoffUnitMs
    else
      PowBound(Min(count, MaxBackoffExponent));
      BackoffUnitMs * Pow2(Min(count, MaxBackoffExponent))
  }

  lemma PowBound(k: nat)
    requires k <= 3
    ensures Pow2(k) <= 8
  {
  }

  /** Below the limit, a later retry never waits less than an earlier one. */
  lemma {:induction false} RetryDelayMonotone(c1: nat, c2: nat, maxRetries: nat)
    requires c1 <= c2 < maxRetries
    ensures RetryDelayMs(c1, maxRetries) <= RetryDelayMs(c2, maxRetries)
  {
    Pow2Monotone(Min(c1, MaxBackoffExponent), Min(c2, MaxBackoffExponent));
  }

  lemma {:induction false} Pow2Monotone(a: nat, b: nat)
    requires a <= b
    ensures Pow2(a) <= Pow2(b)
    decreases b
  {
    if a < b {
      Pow2Monotone(a, b - 1);
    }
  }

  /** With the default `max_retries` of 3, the failures counted 1, 2, 3, 4
    * wait 1000, 2000, 500 and 500 milliseconds. */
  lemma DefaultRetrySchedule()
    ensures RetryDelayMs(1, DefaultConfig().maxRetries) == 1000
    ensures RetryDelayMs(2, DefaultConfig().maxRetries) == 2000
    ensures RetryDelayMs(3, DefaultConfig().maxRetries) == 500
    ensures RetryDelayMs(4, DefaultConfig().maxRetries) == 500
  {
    assert Pow2(1) == 2;
    assert Pow2(2) == 4;
  }

  /** `Instant::elapsed`, which never goes negative. */
  function Elapsed(since: nat, now: nat): nat
  {
    if now >= since then now - since else 0
  }

  /** The update-check gate of the monitoring loop: never checked, or at
    * least one interval has passed since the last check. */
  predicate ShouldCheckForUpdates(last: Option<nat>, now: nat, interval: nat)
  {
    match last
    case None => true
    case Some(t) => Elapsed(t, now) >= interval
  }

  lemma ShouldCheckForUpdatesMeaning(last: Option<nat>, now: nat, interval: nat)
    requires last.Some? ==> last.value <= now
    ensures ShouldCheckForUpdates(last, now, interval) <==>
              last.None? || now >= last.value + interval
  {
  }

  /** What `docker.version()` reported; absent fields become "Unknown". */
  datatype VersionReply = VersionReply(
    version: Option<string>, apiVersion: Option<string>, os: Option<string>, arch: Option<string>)

  /** What one connection attempt met. `reg` and `wmic` are the outputs of the
    * desktop-version commands (None when a command failed), and
    * `containers` the size of the container list (None when it failed or
    * timed out). */
  datatype ConnectOutcome =
    | ClientFailed(detail: string)
    | VersionTimedOut
    | VersionFailed
    | Connected(reply: VersionReply, reg: Option<string>, wmic: Option<string>, containers: Option<nat>)

  function EngineVersion(reply: VersionReply): (v: DockerVersion)
    ensures reply.version.Some? ==> v.version == reply.version.value
    ensures reply.version.None? ==> v.version == UnknownField
    ensures reply.apiVersion.Some? ==> v.apiVersion == reply.apiVersion.value
    ensures reply.apiVersion.None? ==> v.apiVersion == UnknownField
    ensures reply.os.Some? ==> v.os == reply.os.value
    ensures reply.os.None? ==> v.os == UnknownField
    ensures reply.arch.Some? ==> v.arch == reply.arch.value
    ensures reply.arch.None? ==> v.arch == UnknownField
  {
    DockerVersion(
      reply.version.GetOr(UnknownField), reply.apiVersion.GetOr(UnknownField),
      reply.os.GetOr(UnknownField), reply.arch.GetOr(UnknownField))
  }

  /** The record `try_connect_docker` writes after a successful connection. */
  function ConnectedStatus(reply: VersionReply, desktop: Option<string>, containers: Option<nat>, now: nat): (s: DockerStatus)
    ensures s.isRunning && s.error.None?
    ensures s.engineVersion == Some(EngineVersion(reply)) && s.desktopVersion == desktop
    ensures s.engineUpdateAvailable.None? && s.desktopUpdateAvailable.None?
    ensures containers.None? <==> s.containerCount.None?
    ensures containers.Some? && containers.value <= I32_MAX ==> s.containerCount == Some(containers.value)
    ensures s.lastChecked == Some(now)
  {
    DockerStatus(true, Some(EngineVersion(reply)), desktop, None, None, None,
                 if containers.Some? then Some(AsI32(containers.value)) else None, Some(now))
  }

  /** `try_connect_docker`: fails without touching the state, or installs the
    * client and a fresh running record. The background update probe it
    * spawns is the separate event `UpdateProbesDone`. */
  function TryConnect(st: DockerState, outcome: ConnectOutcome, now: nat): (r: Result<DockerState, DockerError>)
    ensures outcome.ClientFailed? ==> r == Failure(ConnectionFailed(outcome.detail))
    ensures outcome.VersionTimedOut? ==> r == Failure(Timeout)
    ensures outcome.VersionFailed? ==> r == Failure(NotRunning)
    ensures r.Success? <==> outcome.Connected?
    ensures r.Success? ==> r.value.hasClient && r.value.status.isRunning && r.value.status.error.None?
    ensures r.Success? ==> r.value.config == st.config && r.value.retryCount == st.retryCount
                           && r.value.lastUpdateCheck == st.lastUpdateCheck
    ensures r.Success? ==> r.value.status == ConnectedStatus(outcome.reply,
                             DetectDesktopVersion(outcome.reg, outcome.wmic), outcome.containers, now)
  {
    match outcome
    case ClientFailed(d) => Failure(ConnectionFailed(d))
    case VersionTimedOut => Failure(Timeout)
    case VersionFailed => Failure(NotRunning)
    case Connected(reply, reg, wmic, containers) =>
      var desktop := DetectDesktopVersion(reg, wmic);
      Success(st.(hasClient := true, status := ConnectedStatus(reply, desktop, containers, now)))
  }

  /** The error arm of the retry tick: not running, the versions, update
    * flags and container count cleared. */
  function ConnectFailedStatus(s: DockerStatus, e: DockerError, now: nat): (r: DockerStatus)
    ensures !r.isRunning && r.error == Some(ErrorMessage(e))
    ensures r.engineVersion.None? && r.desktopVersion.None?
    ensures r.engineUpdateAvailable.None? && r.desktopUpdateAvailable.None?
    ensures r.containerCount.None? && r.lastChecked == Some(now)
  {
    s.(error := Some(ErrorMessage(e)), isRunning := false, engineVersion := None,
       desktopVersion := None, engineUpdateAvailable := None, desktopUpdateAvailable := None,
       containerCount := None, lastChecked := Some(now))
  }

  /** A lost connection (no ping answer, ping timeout, broken event stream):
    * only a running record changes, and only in its running flag, error,
    * container count and timestamp. */
  function MarkLost(s: DockerStatus, message: string, now: nat): (r: DockerStatus)
    ensures !s.isRunning ==> r == s
    ensures s.isRunning ==> !r.isRunning && r.error == Some(message)
                            && r.containerCount.None? && r.lastChecked == Some(now)
    ensures r.engineVersion == s.engineVersion && r.desktopVersion == s.desktopVersion
    ensures r.engineUpdateAvailable == s.engineUpdateAvailable
    ensures r.desktopUpdateAvailable == s.desktopUpdateAvailable
  {
    if s.isRunning then
      s.(isRunning := false, error := Some(message), containerCount := None, lastChecked := Some(now))
    else s
  }

  /** How a ping went. */
  datatype PingOutcome =
    | PingOk(containers: Option<nat>)
    | PingFailed
    | PingTimedOut

  /** A state together with what the operation returned. */
  datatype Outcome = Outcome(state: DockerState, result: Result<(), DockerError>)

  /** `perform_health_check`. */
  function HealthCheck(st: DockerState, ping: PingOutcome, now: nat): (o: Outcome)
    ensures !st.hasClient ==> o == Outcome(st, Failure(ConnectionLost))
    ensures o.result.Success? <==> st.hasClient && ping.PingOk?
    ensures o.result.Success? ==> o.state.status.isRunning && o.state.status.error.None?
    ensures st.hasClient && ping.PingOk? ==>
              o.state.status.containerCount == PingCount(ping.containers)
              && o.state.status.lastChecked == Some(now)
    ensures st.hasClient && ping.PingFailed? ==>
              o == Outcome(st.(status := MarkLost(st.status, NotRespondingMessage, now)), Failure(ConnectionLost))
    ensures st.hasClient && ping.PingTimedOut? ==>
              o == Outcome(st.(status := MarkLost(st.status, TimeoutMessage, now)), Failure(Timeout))
    ensures o.state.hasClient == st.hasClient && o.state.config == st.config
    ensures o.state.retryCount == st.retryCount && o.state.lastUpdateCheck == st.lastUpdateCheck
    ensures o.state.status.engineVersion == st.status.engineVersion
    ensures o.state.status.desktopVersion == st.status.desktopVersion
    ensures o.state.status.engineUpdateAvailable == st.status.engineUpdateAvailable
    ensures o.state.status.desktopUpdateAvailable == st.status.desktopUpdateAvailable
  {
    if !st.hasClient then Outcome(st, Failure(ConnectionLost))
    else
      match ping
      case PingOk(containers) =>
        Outcome(st.(status := st.status.(containerCount := PingCount(containers), lastChecked := Some(now),
                                         isRunning := true, error := None)),
                Success(()))
      case PingFailed =>
        Outcome(st.(status := MarkLost(st.status, NotRespondingMessage, now)), Failure(ConnectionLost))
      case PingTimedOut =>
        Outcome(st.(status := MarkLost(st.status, TimeoutMessage, now)), Failure(Timeout))
  }

  /** One item of the Docker event stream. */
  datatype StreamItem =
    | EventReceived(ping: PingOutcome)
    | StreamBroken

  /** `start_event_monitoring`: a health check per event until one fails; a
    * broken stream marks the record lost. It always ends in
    * `ConnectionLost`, and never touches versions or update flags. */
  function MonitorEvents(st: DockerState, items: seq<StreamItem>, now: nat): (o: Outcome)
    ensures o.result == Failure(ConnectionLost)
    ensures !st.hasClient ==> o.state == st
    ensures st.hasClient && |items| > 0 && items[0].StreamBroken? ==>
              o.state.status == MarkLost(st.status, ReconnectingMessage, now)
    ensures st.hasClient && |items| > 0 && items[0] == EventReceived(PingFailed) ==>
              o.state.status == MarkLost(st.status, NotRespondingMessage, now)
    ensures st.hasClient && |items| > 0 && items[0] == EventReceived(PingTimedOut) ==>
              o.state.status == MarkLost(st.status, TimeoutMessage, now)
    ensures o.state.hasClient == st.hasClient && o.state.config == st.config
    ensures o.state.retryCount == st.retryCount && o.state.lastUpdateCheck == st.lastUpdateCheck
    ensures o.state.status.engineVersion == st.status.engineVersion
    ensures o.state.status.desktopVersion == st.status.desktopVersion
    ensures o.state.status.engineUpdateAvailable == st.status.engineUpdateAvailable
    ensures o.state.status.desktopUpdateAvailable == st.status.desktopUpdateAvailable
    decreases |items|
  {
    if !st.hasClient || |items| == 0 then Outcome(st, Failure(ConnectionLost))
    else
      match items[0]
      case StreamBroken =>
        Outcome(st.(status := MarkLost(st.status, ReconnectingMessage, now)), Failure(ConnectionLost))
      case EventReceived(ping) =>
        var h := HealthCheck(st, ping, now);
        if h.result.Failure? then Outcome(h.state, Failure(ConnectionLost))
        else MonitorEvents(h.state, items[1..], now)
  }

  /** The container count a successful ping writes. */
  function PingCount(containers: Option<nat>): Option<int>
  {
    if containers.Some? then Some(AsI32(containers.value)) else None
  }

  /** While every event's health check succeeds, monitoring keeps the record
    * running with no error, and the record holds the last ping's count. */
  lemma {:induction false} MonitorAllPingsOk(st: DockerState, items: seq<StreamItem>, now: nat)
    requires st.hasClient && |items| > 0
    requires forall i :: 0 <= i < |items| ==> items[i].EventReceived? && items[i].ping.PingOk?
    ensures MonitorEvents(st, items, now).state.status.isRunning
    ensures MonitorEvents(st, items, now).state.status.error.None?
    ensures MonitorEvents(st, items, now).state.status.containerCount
              == PingCount(items[|items| - 1].ping.containers)
    ensures MonitorEvents(st, items, now).state.status.lastChecked == Some(now)
    decreases |items|
  {
    var h := HealthCheck(st, items[0].ping, now);
    assert h.result.Success?;
    assert MonitorEvents(st, items, now) == MonitorEvents(h.state, items[1..], now);
    if |items| > 1 {
      assert forall i :: 0 <= i < |items[1..]| ==> items[1..][i] == items[i + 1];
      MonitorAllPingsOk(h.state, items[1..], now);
      assert items[1..][|items[1..]| - 1] == items[|items| - 1];
    }
  }

  /** An event whose health check got an answer. */
  predicate Answered(item: StreamItem)
  {
    item.EventReceived? && item.ping.PingOk?
  }

  /** Monitoring with a handle ends with the record running exactly when
    * every event's health check got an answer. */
  lemma {:induction false} MonitorRunningIffAllPingsOk(st: DockerState, items: seq<StreamItem>, now: nat)
    requires st.hasClient && |items| > 0
    ensures MonitorEvents(st, items, now).state.status.isRunning <==>
              forall i :: 0 <= i < |items| ==> Answered(items[i])
    decreases |items|
  {
    if Answered(items[0]) {
      var h := HealthCheck(st, items[0].ping, now);
      assert MonitorEvents(st, items, now) == MonitorEvents(h.state, items[1..], now);
      if |items| == 1 {
        assert MonitorEvents(h.state, items[1..], now).state == h.state;
      } else {
        MonitorRunningIffAllPingsOk(h.state, items[1..], now);
        assert forall i :: 0 <= i < |items[1..]| ==> items[1..][i] == items[i + 1];
        if forall i :: 0 <= i < |items[1..]| ==> Answered(items[1..][i]) {
          forall i | 0 <= i < |items| ensures Answered(items[i]) {
            if i > 0 { assert items[i] == items[1..][i - 1]; }
          }
        }
      }
    } else {
      assert !MonitorEvents(st, items, now).state.status.isRunning;
    }
  }

  /** Monitoring stops at the first event without an answer, however many
    * answered events came before it: a record that was running then is
    * marked lost with that item's text. */
  lemma {:induction false} MonitorStopsAtFirstFailure(st: DockerState, items: seq<StreamItem>, k: nat, now: nat)
    requires st.hasClient && k < |items|
    requires forall i :: 0 <= i < k ==> Answered(items[i])
    requires !Answered(items[k])
    ensures !MonitorEvents(st, items, now).state.status.isRunning
    ensures k > 0 || st.status.isRunning ==>
              var s := MonitorEvents(st, items, now).state.status;
              s.containerCount.None? && s.lastChecked == Some(now)
              && (items[k].StreamBroken? ==> s.error == Some(ReconnectingMessage))
              && (items[k] == EventReceived(PingFailed) ==> s.error == Some(NotRespondingMessage))
              && (items[k] == EventReceived(PingTimedOut) ==> s.error == Some(TimeoutMessage))
    decreases k
  {
    if k > 0 {
      assert Answered(items[0]);
      var h := HealthCheck(st, items[0].ping, now);
      assert MonitorEvents(st, items, now) == MonitorEvents(h.state, items[1..], now);
      assert forall i :: 0 <= i < |items[1..]| ==> items[1..][i] == items[i + 1];
      MonitorStopsAtFirstFailure(h.state, items[1..], k - 1, now);
    } else {
      assert !Answered(items[0]);
    }
  }

  /** The background probe spawned by a connection: a flag is overwritten
    * only by a definite answer. The desktop probe runs only when a desktop
    * version was known at connection time. */
  function BackgroundUpdateStatus(s: DockerStatus, desktopKnown: bool, engineProbe: Option<bool>,
                                  desktopProbe: Option<bool>): (r: DockerStatus)
    ensures r.engineUpdateAvailable == (if engineProbe.Some? then engineProbe else s.engineUpdateAvailable)
    ensures r.desktopUpdateAvailable ==
              (if desktopKnown && desktopProbe.Some? then desktopProbe else s.desktopUpdateAvailable)
    ensures r.(engineUpdateAvailable := s.engineUpdateAvailable,
               desktopUpdateAvailable := s.desktopUpdateAvailable) == s
  {
    var desktop := if desktopKnown then desktopProbe else None;
    s.(engineUpdateAvailable := if engineProbe.Some? then engineProbe else s.engineUpdateAvailable,
       desktopUpdateAvailable := if desktop.Some? then desktop else s.desktopUpdateAvailable)
  }

  /** `check_for_updates`: both flags are written, an absent version or an
    * absent answer writing `None`, and the check time is recorded. */
  function CheckForUpdates(st: DockerState, engineProbe: Option<bool>, desktopProbe: Option<bool>,
                           now: nat): (r: DockerState)
    ensures r.status.engineUpdateAvailable.Some? <==>
              st.status.engineVersion.Some? && engineProbe.Some?
    ensures r.status.desktopUpdateAvailable.Some? <==>
              st.status.desktopVersion.Some? && desktopProbe.Some?
    ensures r.status.engineUpdateAvailable.Some? ==> r.status.engineUpdateAvailable == engineProbe
    ensures r.status.desktopUpdateAvailable.Some? ==> r.status.desktopUpdateAvailable == desktopProbe
    ensures r.status.lastChecked == Some(now) && r.lastUpdateCheck == Some(now)
    ensures r.status.isRunning == st.status.isRunning && r.status.error == st.status.error
    ensures r.hasClient == st.hasClient && r.retryCount == st.retryCount
    ensures r.status.(engineUpdateAvailable := st.status.engineUpdateAvailable,
                      desktopUpdateAvailable := st.status.desktopUpdateAvailable,
                      lastChecked := st.status.lastChecked) == st.status
    ensures r.config == st.config
  {
    var engine := if st.status.engineVersion.Some? then engineProbe else None;
    var desktop := if st.status.desktopVersion.Some? then desktopProbe else None;
    st.(status := st.status.(engineUpdateAvailable := engine, desktopUpdateAvailable := desktop,
                             lastChecked := Some(now)),
        lastUpdateCheck := Some(now))
  }

  /** What the monitor reacts to. */
  datatype Event =
    | InitialConnect(outcome: ConnectOutcome, stream: seq<StreamItem>, now: nat)
    | RetryTick(outcome: ConnectOutcome, stream: seq<StreamItem>, now: nat)
    | HealthTick(ping: PingOutcome, now: nat)
    | UpdateTick(engineProbe: Option<bool>, desktopProbe: Option<bool>, now: nat)
    | UpdateProbesDone(desktopKnown: bool, engineProbe: Option<bool>, desktopProbe: Option<bool>)

  /** The retry tick of the monitoring loop: a connection attempt, then
    * either the event stream with the retry count reset, or the error record
    * with the retry count bumped. */
  function RetryStep(st: DockerState, outcome: ConnectOutcome, stream: seq<StreamItem>, now: nat): (r: DockerState)
    requires st.retryCount <= U32_MAX
    ensures TryConnect(st, outcome, now).Success? ==>
              var connected := TryConnect(st, outcome, now).value.status;
              && r.retryCount == 0 && r.hasClient && r.config == st.config
              && r.status.engineVersion == connected.engineVersion
              && r.status.desktopVersion == connected.desktopVersion
              && r.status.engineUpdateAvailable == connected.engineUpdateAvailable
              && r.status.desktopUpdateAvailable == connected.desktopUpdateAvailable
    ensures TryConnect(st, outcome, now).Failure? ==>
              r.retryCount == SatInc(st.retryCount) && r.hasClient == st.hasClient
              && r.status == ConnectFailedStatus(st.status, TryConnect(st, outcome, now).error, now)
    ensures TryConnect(st, outcome, now).Failure? ==>
              RetryDelayAfter(r) == RetryDelayMs(SatInc(st.retryCount), st.config.maxRetries)
  {
    match TryConnect(st, outcome, now)
    case Success(connected) => MonitorEvents(connected.(retryCount := 0), stream, now).state
    case Failure(e) => st.(status := ConnectFailedStatus(st.status, e, now), retryCount := SatInc(st.retryCount))
  }

  /** The delay the loop sleeps after a failed retry tick, computed from
    * the count as already bumped. */
  function RetryDelayAfter(st: DockerState): nat
  {
    RetryDelayMs(st.retryCount, st.config.maxRetries)
  }

  /** The monitor's response to one event. The initial connection keeps
    * the retry count and writes nothing when it fails; the update check
    * runs only when it is due. */
  function Step(st: DockerState, e: Event): (r: DockerState)
    requires st.retryCount <= U32_MAX
    ensures e.InitialConnect? && TryConnect(st, e.outcome, e.now).Failure? ==> r == st
    ensures e.InitialConnect? && TryConnect(st, e.outcome, e.now).Success? ==>
              var connected := TryConnect(st, e.outcome, e.now).value.status;
              && r.hasClient && r.retryCount == st.retryCount && r.config == st.config
              && r.status.engineVersion == connected.engineVersion
              && r.status.desktopVersion == connected.desktopVersion
    ensures e.RetryTick? ==> r == RetryStep(st, e.outcome, e.stream, e.now)
    ensures e.HealthTick? ==> r == HealthCheck(st, e.ping, e.now).state
    ensures e.UpdateTick? && !ShouldCheckForUpdates(st.lastUpdateCheck, e.now, st.config.updateCheckIntervalMs) ==>
              r == st
    ensures e.UpdateTick? && ShouldCheckForUpdates(st.lastUpdateCheck, e.now, st.config.updateCheckIntervalMs) ==>
              r == CheckForUpdates(st, e.engineProbe, e.desktopProbe, e.now) && r.lastUpdateCheck == Some(e.now)
    ensures e.UpdateProbesDone? ==>
              r == st.(status := BackgroundUpdateStatus(st.status, e.desktopKnown, e.engineProbe, e.desktopProbe))
  {
    match e
    case InitialConnect(outcome, stream, now) =>
      (match TryConnect(st, outcome, now)
       case Success(connected) => MonitorEvents(connected, stream, now).state
       case Failure(_) => st)
    case RetryTick(outcome, stream, now) => RetryStep(st, outcome, stream, now)
    case HealthTick(ping, now) => HealthCheck(st, ping, now).state
    case UpdateTick(engineProbe, desktopProbe, now) =>
      if ShouldCheckForUpdates(st.lastUpdateCheck, now, st.config.updateCheckIntervalMs)
      then CheckForUpdates(st, engineProbe, desktopProbe, now)
      else st
    case UpdateProbesDone(desktopKnown, engineProbe, desktopProbe) =>
      st.(status := BackgroundUpdateStatus(st.status, desktopKnown, engineProbe, desktopProbe))
  }

  /** The invariant of the monitor's state. */
  predicate Inv(st: DockerState)
  {
    && (st.status.isRunning <==> st.status.error.None?)
    && (st.status.error.Some? ==> KnownError(st.status.error.value))
    && (st.status.isRunning ==> st.hasClient)
    && (st.status.containerCount.Some? ==> I32_MIN <= st.status.containerCount.value <= I32_MAX)
    && st.retryCount <= U32_MAX
    && st.config == DefaultConfig()
  }

  lemma InitialStateInv()
    ensures Inv(InitialState())
  {
  }

  /** The invariant of a status record's own fields, kept by each writer. */
  predicate StatusInv(s: DockerStatus)
  {
    && (s.isRunning <==> s.error.None?)
    && (s.error.Some? ==> KnownError(s.error.value))
    && (s.containerCount.Some? ==> I32_MIN <= s.containerCount.value <= I32_MAX)
  }

  lemma ErrorMessageKnown(e: DockerError)
    ensures KnownError(ErrorMessage(e))
  {
  }

  lemma MarkLostKeepsStatusInv(s: DockerStatus, message: string, now: nat)
    requires StatusInv(s) && KnownError(message)
    ensures StatusInv(MarkLost(s, message, now))
  {
  }

  lemma HealthCheckKeepsInv(st: DockerState, ping: PingOutcome, now: nat)
    requires Inv(st)
    ensures Inv(HealthCheck(st, ping, now).state)
  {
    assert KnownError(NotRespondingMessage);
    assert KnownError(TimeoutMessage) by { ErrorMessageKnown(Timeout); }
  }

  lemma {:induction false} MonitorEventsKeepsInv(st: DockerState, items: seq<StreamItem>, now: nat)
    requires Inv(st)
    ensures Inv(MonitorEvents(st, items, now).state)
    decreases |items|
  {
    if st.hasClient && |items| > 0 {
      match items[0]
      case StreamBroken =>
        assert KnownError(ReconnectingMessage);
      case EventReceived(ping) =>
        HealthCheckKeepsInv(st, ping, now);
        var h := HealthCheck(st, ping, now);
        if h.result.Success? {
          MonitorEventsKeepsInv(h.state, items[1..], now);
        }
    }
  }

  lemma TryConnectKeepsInv(st: DockerState, outcome: ConnectOutcome, now: nat)
    requires Inv(st)
    ensures TryConnect(st, outcome, now).Success? ==> Inv(TryConnect(st, outcome, now).value)
  {
  }

  /** Every event keeps the invariant. */
  lemma StepKeepsInv(st: DockerState, e: Event)
    requires Inv(st)
    ensures Inv(Step(st, e))
  {
    match e
    case InitialConnect(outcome, stream, now) =>
      TryConnectKeepsInv(st, outcome, now);
      var t := TryConnect(st, outcome, now);
      if t.Success? {
        MonitorEventsKeepsInv(t.value, stream, now);
      }
    case RetryTick(outcome, stream, now) =>
      TryConnectKeepsInv(st, outcome, now);
      var t := TryConnect(st, outcome, now);
      if t.Success? {
        MonitorEventsKeepsInv(t.value.(retryCount := 0), stream, now);
      } else {
        ErrorMessageKnown(t.error);
      }
    case HealthTick(ping, now) =>
      HealthCheckKeepsInv(st, ping, now);
    case UpdateTick(_, _, _) =>
    case UpdateProbesDone(_, _, _) =>
  }

  /** The monitor's state after a sequence of events. */
  function Run(st: DockerState, events: seq<Event>): (r: DockerState)
    requires Inv(st)
    ensures Inv(r)
    decreases |events|
  {
    if |events| == 0 then st
    else
      StepKeepsInv(st, events[0]);
      Run(Step(st, events[0]), events[1..])
  }

  /** From the initial state, on any sequence of events, the record is
    * running exactly when it carries no error. */
  lemma RunningIffNoError(events: seq<Event>)
    ensures var s := Run(InitialState(), events).status; s.isRunning <==> s.error.None?
  {
    InitialStateInv();
  }

  /** A failed connection does not drop the client handle, so a later ping
    * can report Docker running with no engine version in the record. */
  lemma RunningWithoutEngineVersion(detail: string, now: nat)
    ensures var events := [
                RetryTick(Connected(VersionReply(None, None, None, None), None, None, None), [], now),
                RetryTick(ClientFailed(detail), [], now),
                HealthTick(PingOk(None), now)];
            var s := Run(InitialState(), events).status;
            s.isRunning && s.engineVersion.None?
  {
    var c := Connected(VersionReply(None, None, None, None), None, None, None);
    var events := [RetryTick(c, [], now), RetryTick(ClientFailed(detail), [], now), HealthTick(PingOk(None), now)];
    var s0 := InitialState();
    InitialStateInv();
    var s1 := Step(s0, events[0]);
    assert s1.hasClient;
    StepKeepsInv(s0, events[0]);
    var s2 := Step(s1, events[1]);
    assert s2.hasClient && s2.status.engineVersion.None?;
    StepKeepsInv(s1, events[1]);
    var s3 := Step(s2, events[2]);
    assert s3.status.isRunning && s3.status.engineVersion.None?;
    assert events[1..][1..][1..] == [];
    assert Run(s2, events[2..]) == Run(s3, []);
    assert events[1..][1..] == events[2..];
    assert Run(s1, events[1..]) == Run(s2, events[2..]);
    assert Run(s0, events) == Run(s1, events[1..]);
  }

  /** `get_docker_version`: the engine details, or an error when none are
    * known. */
  function GetDockerVersion(st: DockerState): (r: Result<DockerVersion, string>)
    ensures r.Success? <==> st.status.engineVersion.Some?
    ensures r.Success? ==> r.value == st.status.engineVersion.value
    ensures r.Failure? ==> r.error == VersionUnavailableMessage
  {
    match st.status.engineVersion
    case Some(v) => Success(v)
    case None => Failure(VersionUnavailableMessage)
  }
}
