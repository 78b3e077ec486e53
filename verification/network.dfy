/** The network section of the system overview
  * (src/components/Pages/SystemOverview/Sections/NetworkSection.tsx): the
  * speed tiers behind its icon and colour, the unit choice of the speed
  * formatter, and which rows it draws. Every field of the network record is
  * optional; `None` stands for `undefined`. A number field is falsy when it
  * is absent or zero (NaN is not modelled), a string field when it is absent
  * or empty. `toFixed(1)` is not modelled: a formatted figure is kept as the
  * number it formats. */
module Network {
  import opened Wrappers
  import Envelope

  datatype NetworkInfo = NetworkInfo(
    networkType: Option<string>,
    downloadMbps: Option<real>,
    uploadMbps: Option<real>,
    latencyMs: Option<real>,
    ispName: Option<string>,
    publicIp: Option<string>,
    region: Option<string>,
    country: Option<string>)

  /** The lower bounds (exclusive) of the Fast, Good and Moderate tiers, in
    * Mbit/s. */
  const FastAbove: real := 100.0
  const GoodAbove: real := 25.0
  const ModerateAbove: real := 10.0

  /** Icons and colour classes, indexed by tier (0 is Basic). */
  const TierIcons: seq<string> := ["\U{1F310}", "\U{1F4F6}", "\U{1F4E1}", "\U{1F680}"]
  const TierColors: seq<string> := ["text-gray-500", "text-yellow-500", "text-blue-500", "text-green-500"]

  const GigabitFrom: real := 1000.0
  const LatencyWarningAbove: real := 100.0
  const NoConnectionType: string := "Connection type unavailable"

  predicate FalsyNumber(x: Option<real>)
  {
    x.None? || x.value == 0.0
  }

  predicate FalsyText(x: Option<string>)
  {
    x.None? || |x.value| == 0
  }

  /** The tier of a download speed, by the strict thresholds alone. */
  function SpeedTier(speed: Option<real>): (t: nat)
    ensures t < 4
    ensures t == 3 <==> speed.Some? && speed.value > FastAbove
    ensures t >= 2 <==> speed.Some? && speed.value > GoodAbove
    ensures t >= 1 <==> speed.Some? && speed.value > ModerateAbove
  {
    if speed.Some? && speed.value > FastAbove then 3
    else if speed.Some? && speed.value > GoodAbove then 2
    else if speed.Some? && speed.value > ModerateAbove then 1
    else 0
  }

  /** A faster download is never in a lower tier. */
  lemma SpeedTierMonotone(a: real, b: real)
    requires a <= b
    ensures SpeedTier(Some(a)) <= SpeedTier(Some(b))
  {
  }

  /** `getNetworkStatusIcon`: each threshold is guarded by the
    * truthiness of the speed. */
  function StatusIcon(info: NetworkInfo): (icon: string)
    ensures icon == TierIcons[SpeedTier(info.downloadMbps)]
  {
    var s := info.downloadMbps;
    if !FalsyNumber(s) && s.value > FastAbove then "\U{1F680}"
    else if !FalsyNumber(s) && s.value > GoodAbove then "\U{1F4E1}"
    else if !FalsyNumber(s) && s.value > ModerateAbove then "\U{1F4F6}"
    else "\U{1F310}"
  }

  /** `getNetworkStatusColor`, with the same tests as the icon. */
  function StatusColor(info: NetworkInfo): (color: string)
    ensures color == TierColors[SpeedTier(info.downloadMbps)]
  {
    var s := info.downloadMbps;
    if !FalsyNumber(s) && s.value > FastAbove then "text-green-500"
    else if !FalsyNumber(s) && s.value > GoodAbove then "text-blue-500"
    else if !FalsyNumber(s) && s.value > ModerateAbove then "text-yellow-500"
    else "text-gray-500"
  }

  /** Icon and colour always describe the same tier, and an absent or zero
    * speed is Basic. */
  lemma IconAndColorAgree(info: NetworkInfo)
    ensures exists t :: 0 <= t < 4 && StatusIcon(info) == TierIcons[t] && StatusColor(info) == TierColors[t]
    ensures FalsyNumber(info.downloadMbps) ==> StatusIcon(info) == TierIcons[0] && StatusColor(info) == TierColors[0]
  {
    var t := SpeedTier(info.downloadMbps);
    assert StatusIcon(info) == TierIcons[t] && StatusColor(info) == TierColors[t];
  }

  /** A formatted speed: the figure to print with one decimal and its unit. */
  datatype SpeedText = SpeedText(amount: real, unit: string)

  /** `formatNetworkSpeed`: gigabits from 1000 Mbit/s up, megabits below. */
  function FormatNetworkSpeed(speed: real): (t: SpeedText)
    ensures t.unit == "Gbps" <==> speed >= GigabitFrom
    ensures t.unit == "Mbps" <==> speed < GigabitFrom
    ensures t.amount * (if t.unit == "Gbps" then GigabitFrom else 1.0) == speed
  {
    if speed >= GigabitFrom then SpeedText(speed / GigabitFrom, "Gbps") else SpeedText(speed, "Mbps")
  }

  datatype Severity = Info | Warning

  /** A figure to be printed: a formatted speed, a latency in ms, or text. */
  datatype Value = Speed(speed: SpeedText) | Millis(ms: real) | Text(text: string)

  /** What one `{cond && <Row/>}` child draws: a row, or the bare text "0"
    * that React prints for a falsy number. */
  datatype Node = RowNode(caption: string, value: Value, severity: Severity) | ZeroText

  /** The severity of the latency row. */
  function LatencySeverity(ms: real): (s: Severity)
    ensures s == Warning <==> ms > LatencyWarningAbove
  {
    if ms > LatencyWarningAbove then Warning else Info
  }

  /** `{x && <Row/>}` for a number `x`: nothing when it is absent, the text
    * "0" when it is zero, the row otherwise. */
  function NumberGuard(x: Option<real>, row: real -> Node): (nodes: seq<Node>)
    ensures x.None? ==> nodes == []
    ensures x.Some? && x.value == 0.0 ==> nodes == [ZeroText]
    ensures !FalsyNumber(x) ==> nodes == [row(x.value)]
    ensures |nodes| == Present(x)
  {
    if x.None? then [] else if x.value == 0.0 then [ZeroText] else [row(x.value)]
  }

  /** One for a truthy number, zero for a falsy one. */
  function Truthy(x: Option<real>): nat
  {
    if FalsyNumber(x) then 0 else 1
  }

  /** One for a present number, zero for an absent one. */
  function Present(x: Option<real>): nat
  {
    if x.Some? then 1 else 0
  }

  /** The download row of a speed block. */
  function DownloadRow(mbps: real): Node
  {
    RowNode("Download Speed", Speed(FormatNetworkSpeed(mbps)), Info)
  }

  /** The upload row of a speed block. */
  function UploadRow(mbps: real): Node
  {
    RowNode("Upload Speed", Speed(FormatNetworkSpeed(mbps)), Info)
  }

  /** The latency row of a speed block. */
  function LatencyRow(ms: real): Node
  {
    RowNode("Latency", Millis(ms), LatencySeverity(ms))
  }

  /** The speed block as written: download, upload and latency, each guarded
    * by `&&` on the number itself. */
  function SpeedNodes(info: NetworkInfo): (nodes: seq<Node>)
    ensures |nodes| <= 3
    ensures ZeroText in nodes <==>
              info.downloadMbps == Some(0.0) || info.uploadMbps == Some(0.0) || info.latencyMs == Some(0.0)
    ensures (exists n :: n in nodes && n.RowNode? && n.caption == "Latency") <==> !FalsyNumber(info.latencyMs)
    ensures info.downloadMbps.Some? && info.uploadMbps.Some? && info.latencyMs.Some? ==> |nodes| == 3
  {
    var down := NumberGuard(info.downloadMbps, DownloadRow);
    var up := NumberGuard(info.uploadMbps, UploadRow);
    var lat := NumberGuard(info.latencyMs, LatencyRow);
    GuardsAgree(info.downloadMbps, DownloadRow);
    GuardsAgree(info.uploadMbps, UploadRow);
    GuardsAgree(info.latencyMs, LatencyRow);
    assert forall n :: n in down + up ==> !(n.RowNode? && n.caption == "Latency");
    assert !FalsyNumber(info.latencyMs) ==> lat[0] in down + up + lat;
    down + up + lat
  }

  /** What the written speed block shows: one node per present figure, in
    * the order download, upload, latency, each the formatted row or, for a
    * zero figure, the stray "0". */
  lemma SpeedNodesContent(info: NetworkInfo)
    ensures var nodes := SpeedNodes(info);
            |nodes| == Present(info.downloadMbps) + Present(info.uploadMbps) + Present(info.latencyMs)
            && (info.downloadMbps.Some? ==>
                  nodes[0] == (if info.downloadMbps.value == 0.0 then ZeroText else DownloadRow(info.downloadMbps.value)))
            && (info.uploadMbps.Some? ==>
                  nodes[Present(info.downloadMbps)]
                    == (if info.uploadMbps.value == 0.0 then ZeroText else UploadRow(info.uploadMbps.value)))
            && (info.latencyMs.Some? ==>
                  nodes[Present(info.downloadMbps) + Present(info.uploadMbps)]
                    == (if info.latencyMs.value == 0.0 then ZeroText else LatencyRow(info.latencyMs.value)))
  {
  }

  /** A zero download speed puts a stray "0" in the speed block. */
  lemma ZeroDownloadShowsZero(info: NetworkInfo)
    requires info.downloadMbps == Some(0.0)
    ensures SpeedNodes(info)[0] == ZeroText
  {
  }

  /** A guard that draws the row for a truthy number and nothing otherwise. */
  function TruthyRow(x: Option<real>, row: real -> Node): (nodes: seq<Node>)
    ensures FalsyNumber(x) <==> nodes == []
    ensures !FalsyNumber(x) ==> nodes == [row(x.value)]
    ensures |nodes| == Truthy(x)
  {
    if FalsyNumber(x) then [] else [row(x.value)]
  }

  /** The speed block as evidently intended: a row for each truthy figure and
    * nothing else. */
  function SpeedRows(info: NetworkInfo): (nodes: seq<Node>)
    ensures ZeroText !in nodes
    ensures |nodes| <= 3
    ensures (exists n :: n in nodes && n.RowNode? && n.caption == "Latency") <==> !FalsyNumber(info.latencyMs)
    ensures !FalsyNumber(info.latencyMs) ==>
              nodes[|nodes| - 1].value == Millis(info.latencyMs.value)
              && (nodes[|nodes| - 1].severity == Warning <==> info.latencyMs.value > LatencyWarningAbove)
    ensures |nodes| == Truthy(info.downloadMbps) + Truthy(info.uploadMbps) + Truthy(info.latencyMs)
    ensures !FalsyNumber(info.downloadMbps) ==> nodes[0] == DownloadRow(info.downloadMbps.value)
    ensures !FalsyNumber(info.uploadMbps) ==> nodes[Truthy(info.downloadMbps)] == UploadRow(info.uploadMbps.value)
    ensures !FalsyNumber(info.latencyMs) ==>
              nodes[Truthy(info.downloadMbps) + Truthy(info.uploadMbps)] == LatencyRow(info.latencyMs.value)
  {
    TruthyRow(info.downloadMbps, DownloadRow)
    + TruthyRow(info.uploadMbps, UploadRow)
    + TruthyRow(info.latencyMs, LatencyRow)
  }

  /** One guard of each kind on the same figure: the `&&` guard adds a "0"
    * exactly for a zero figure and otherwise draws the same as the
    * truthiness guard. */
  lemma GuardsAgree(x: Option<real>, row: real -> Node)
    requires forall v :: row(v).RowNode?
    ensures ZeroText in NumberGuard(x, row) <==> x == Some(0.0)
    ensures ZeroText !in TruthyRow(x, row)
    ensures x != Some(0.0) ==> NumberGuard(x, row) == TruthyRow(x, row)
  {
    if !FalsyNumber(x) {
      assert row(x.value).RowNode?;
    }
  }

  /** The two speed blocks differ exactly when the written one has a stray
    * zero. */
  lemma SpeedRowsDropOnlyZeros(info: NetworkInfo)
    ensures SpeedRows(info) == SpeedNodes(info) <==> ZeroText !in SpeedNodes(info)
  {
    GuardsAgree(info.downloadMbps, DownloadRow);
    GuardsAgree(info.uploadMbps, UploadRow);
    GuardsAgree(info.latencyMs, LatencyRow);
  }

  /** The text under the status heading: the connection type, or a fallback
    * for an absent or empty one. */
  function ConnectionTypeText(info: NetworkInfo): (t: string)
    ensures FalsyText(info.networkType) ==> t == NoConnectionType
    ensures !FalsyText(info.networkType) ==> t == info.networkType.value
  {
    if FalsyText(info.networkType) then NoConnectionType else info.networkType.value
  }

  /** The speed-test placeholder is drawn exactly when the download speed is
    * falsy. */
  function ShowsPlaceholder(info: NetworkInfo): (shown: bool)
    ensures shown <==> info.downloadMbps.None? || info.downloadMbps.value == 0.0
  {
    FalsyNumber(info.downloadMbps)
  }

  /** `{x && <Row/>}` for a text field: a row for a non-empty string and
    * nothing visible otherwise. */
  function TextRow(x: Option<string>, caption: string): (rows: seq<Node>)
    ensures FalsyText(x) <==> rows == []
    ensures !FalsyText(x) ==> rows == [RowNode(caption, Text(x.value), Info)]
  {
    if FalsyText(x) then [] else [RowNode(caption, Text(x.value), Info)]
  }

  /** The detail rows: one per truthy text field, in order. */
  function DetailRows(info: NetworkInfo): (rows: seq<Node>)
    ensures |rows| == |TextRow(info.networkType, "Connection Type")| + |TextRow(info.ispName, "ISP")|
                      + |TextRow(info.publicIp, "Public IP")| + |TextRow(info.region, "Region")|
                      + |TextRow(info.country, "Country")|
    ensures ZeroText !in rows
  {
    TextRow(info.networkType, "Connection Type") + TextRow(info.ispName, "ISP")
    + TextRow(info.publicIp, "Public IP") + TextRow(info.region, "Region")
    + TextRow(info.country, "Country")
  }

  /** What the section draws for a successful result. */
  datatype NetworkView = NetworkView(
    icon: string, color: string, typeText: string, speed: seq<Node>, details: seq<Node>, placeholder: bool)

  /** The section, with the evidently intended speed block; an `Err` result
    * draws the error message. */
  function NetworkSectionView(r: Result<NetworkInfo, Envelope.JVal>): (v: Result<NetworkView, Envelope.Completion>)
    ensures r.Failure? ==> v == Failure(Envelope.FormatError(r.error))
    ensures r.Success? ==> v.Success?
                           && v.value.icon == TierIcons[SpeedTier(r.value.downloadMbps)]
                           && v.value.color == TierColors[SpeedTier(r.value.downloadMbps)]
                           && (v.value.placeholder <==> FalsyNumber(r.value.downloadMbps))
                           && (v.value.placeholder ==> v.value.icon == TierIcons[0])
                           && v.value.speed == SpeedRows(r.value) && ZeroText !in v.value.speed
                           && v.value.typeText == ConnectionTypeText(r.value)
                           && v.value.details == DetailRows(r.value)
  {
    match r
    case Failure(e) => Failure(Envelope.FormatError(e))
    case Success(info) =>
      Success(NetworkView(StatusIcon(info), StatusColor(info), ConnectionTypeText(info),
                          SpeedRows(info), DetailRows(info), ShowsPlaceholder(info)))
  }
}
