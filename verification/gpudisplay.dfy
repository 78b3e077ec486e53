/** The pure helpers of the GPU section of the system overview
  * (src/components/Pages/SystemOverview/Sections/GpuSection.tsx): the card
  * title of each GPU, the renaming of graphics-API names and the rules that
  * decide which rows a card shows. */
module GpuDisplay {
  import opened Wrappers
  import opened Strings
  import Envelope

  /** A GPU as the section reads it. The optional fields are the ones the
    * section tests for truthiness; `None` stands for `undefined` or `null`. */
  datatype FrontGpu = FrontGpu(
    name: string, deviceType: Option<string>, driverInfo: Option<string>, backend: Option<string>)

  const ApiSeparator: string := ", "
  const UnavailableDriver: string := "Unavailable"
  const PlaceholderDriverPrefix: string := "32.0"
  const UnknownBackend: string := "Unknown"
  const GenericGpuPrefix: string := "GPU "
  const NoGpuText: string := "No GPU information available"

  /** The four device types that have a label of their own, with it. */
  const DeviceLabels: map<string, string> := map[
    "DiscreteGpu" := "Primary Graphics Card",
    "IntegratedGpu" := "Integrated Graphics",
    "VirtualGpu" := "Virtual Graphics",
    "Cpu" := "CPU Graphics"]

  /** The graphics-API names that are shown under another name. "Vulkan" and
    * "Metal" have explicit cases that return them unchanged. */
  const ApiNames: map<string, string> := map[
    "Dx12" := "DirectX 12",
    "Dx11" := "DirectX 11",
    "Gl" := "OpenGL",
    "BrowserWebGpu" := "WebGPU"]

  /** `getGpuDisplayName`: the label of a known device type, otherwise
    * "GPU " and the one-based position. */
  function GpuDisplayName(gpu: FrontGpu, index: nat): (title: string)
    ensures gpu.deviceType.Some? && gpu.deviceType.value in DeviceLabels ==>
              title == DeviceLabels[gpu.deviceType.value]
    ensures !(gpu.deviceType.Some? && gpu.deviceType.value in DeviceLabels) ==>
              GenericGpuPrefix <= title && title[|GenericGpuPrefix|..] == NatToDecimal(index + 1)
  {
    if gpu.deviceType.Some? && gpu.deviceType.value in DeviceLabels then DeviceLabels[gpu.deviceType.value]
    else GenericGpuPrefix + NatToDecimal(index + 1)
  }

  /** GPUs without a known device type get pairwise different titles. */
  lemma GenericNamesDistinct(a: FrontGpu, i: nat, b: FrontGpu, j: nat)
    requires !(a.deviceType.Some? && a.deviceType.value in DeviceLabels)
    requires !(b.deviceType.Some? && b.deviceType.value in DeviceLabels)
    ensures GpuDisplayName(a, i) == GpuDisplayName(b, j) <==> i == j
  {
    var la, lb := GpuDisplayName(a, i), GpuDisplayName(b, j);
    if la == lb {
      assert NatToDecimal(i + 1) == la[|GenericGpuPrefix|..] == NatToDecimal(j + 1);
      assert DigitsValue(NatToDecimal(i + 1)) == i + 1;
    }
  }

  /** A generic title never equals a device-type label. */
  lemma GenericNameIsNotALabel(gpu: FrontGpu, index: nat)
    requires !(gpu.deviceType.Some? && gpu.deviceType.value in DeviceLabels)
    ensures GpuDisplayName(gpu, index) !in DeviceLabels.Values
  {
    var t := GpuDisplayName(gpu, index);
    assert t[0] == GenericGpuPrefix[0] == 'G';
    assert forall v :: v in DeviceLabels.Values ==> |v| > 0 && v[0] != 'G';
  }

  /** The display name of one graphics API. */
  function RenameApi(b: string): (r: string)
    ensures b in ApiNames ==> r == ApiNames[b]
    ensures b !in ApiNames ==> r == b
  {
    if b in ApiNames then ApiNames[b] else b
  }

  /** Renaming an already renamed entry changes nothing: no display name is
    * itself a key. */
  lemma RenameApiIdempotent(b: string)
    ensures RenameApi(RenameApi(b)) == RenameApi(b)
  {
    assert forall k :: k in ApiNames ==> ApiNames[k] !in ApiNames;
  }

  /** No display name contains the separator. */
  lemma RenamedFree(b: string)
    requires !Contains(b, ApiSeparator)
    ensures !Contains(RenameApi(b), ApiSeparator)
  {
    if b in ApiNames {
      var r := ApiNames[b];
      DisplayNamesHaveNoComma(r);
      NotContainsFirstChar(r, ApiSeparator);
    }
  }

  lemma DisplayNamesHaveNoComma(r: string)
    requires r in ApiNames.Values
    ensures ',' !in r
  {
  }

  /** `.map(...)` with the renaming. */
  function RenameAll(parts: seq<string>): (r: seq<string>)
    ensures |r| == |parts| && forall k :: 0 <= k < |parts| ==> r[k] == RenameApi(parts[k])
  {
    seq(|parts|, k requires 0 <= k < |parts| => RenameApi(parts[k]))
  }

  /** `formatBackendDisplay`: split on ", ", rename each entry, join again.
    * The entries of the display string are the renamed entries of the
    * input, as many and in the same order. */
  function FormatBackendDisplay(backend: string): (r: string)
    ensures Split(r, ApiSeparator) == RenameAll(Split(backend, ApiSeparator))
  {
    RenamedEntriesResplit(backend);
    Join(RenameAll(Split(backend, ApiSeparator)), ApiSeparator)
  }

  /** No renamed entry holds the separator, so the joined entries split
    * back apart. */
  lemma RenamedEntriesResplit(backend: string)
    ensures var renamed := RenameAll(Split(backend, ApiSeparator));
            Split(Join(renamed, ApiSeparator), ApiSeparator) == renamed
  {
    var parts := Split(backend, ApiSeparator);
    var renamed := RenameAll(parts);
    SplitPiecesFree(backend, ApiSeparator);
    forall k | 0 <= k < |renamed|
      ensures !Contains(renamed[k], ApiSeparator)
    {
      RenamedFree(parts[k]);
    }
    assert BorderFree(ApiSeparator) by {
      assert ApiSeparator[1..][0] != ApiSeparator[..1][0];
    }
    SplitJoin(renamed, ApiSeparator);
  }

  /** With no entry to rename, the display string is the input. */
  lemma FormatBackendIdentity(backend: string)
    requires forall k :: 0 <= k < |Split(backend, ApiSeparator)| ==> Split(backend, ApiSeparator)[k] !in ApiNames
    ensures FormatBackendDisplay(backend) == backend
  {
    var parts := Split(backend, ApiSeparator);
    assert RenameAll(parts) == parts;
  }

  /** Formatting twice is formatting once. */
  lemma FormatBackendIdempotent(backend: string)
    ensures FormatBackendDisplay(FormatBackendDisplay(backend)) == FormatBackendDisplay(backend)
  {
    var once := FormatBackendDisplay(backend);
    var renamed := RenameAll(Split(backend, ApiSeparator));
    forall k | 0 <= k < |renamed|
      ensures RenameApi(renamed[k]) == renamed[k]
    {
      RenameApiIdempotent(Split(backend, ApiSeparator)[k]);
    }
    assert RenameAll(renamed) == renamed;
  }

  /** The driver row is shown for a non-empty driver string that is neither
    * "Unavailable" nor a "32.0" placeholder. */
  predicate DriverRowShown(driver: Option<string>)
  {
    driver.Some? && |driver.value| > 0 && driver.value != UnavailableDriver
    && !(PlaceholderDriverPrefix <= driver.value)
  }

  /** The graphics-API row is shown for a non-empty backend other than
    * "Unknown". */
  predicate ApisRowShown(backend: Option<string>)
  {
    backend.Some? && |backend.value| > 0 && backend.value != UnknownBackend
  }

  /** One labelled row of a card. */
  datatype Row = Row(caption: string, value: string)

  /** One GPU card: the title and its rows. The values are the ones handed to
    * the severity helper, which is not part of this model. */
  datatype Card = Card(title: string, rows: seq<Row>)

  /** The card of the GPU at `index`. */
  function GpuCard(gpu: FrontGpu, index: nat): (c: Card)
    ensures c.title == GpuDisplayName(gpu, index)
    ensures 1 <= |c.rows| <= 3 && c.rows[0] == Row("Model", gpu.name)
    ensures |c.rows| == 1 + (if DriverRowShown(gpu.driverInfo) then 1 else 0)
                           + (if ApisRowShown(gpu.backend) then 1 else 0)
    ensures (Row("Driver Version", if gpu.driverInfo.Some? then gpu.driverInfo.value else "") in c.rows)
              <==> DriverRowShown(gpu.driverInfo)
    ensures ApisRowShown(gpu.backend) <==>
              c.rows[|c.rows| - 1] == Row("Graphics APIs", if gpu.backend.Some? then FormatBackendDisplay(gpu.backend.value) else "")
  {
    var driver := if DriverRowShown(gpu.driverInfo) then [Row("Driver Version", gpu.driverInfo.value)] else [];
    var apis := if ApisRowShown(gpu.backend) then [Row("Graphics APIs", FormatBackendDisplay(gpu.backend.value))] else [];
    Card(GpuDisplayName(gpu, index), [Row("Model", gpu.name)] + driver + apis)
  }

  /** What the section shows. */
  datatype GpuView = NoGpus | Cards(cards: seq<Card>) | ErrorRow(message: Envelope.Completion)

  /** The section: an error row for an `Err` result, a notice for an empty
    * list, otherwise one card per GPU in order. */
  function GpuSectionView(gpuInfo: Result<seq<FrontGpu>, Envelope.JVal>): (v: GpuView)
    ensures gpuInfo.Failure? <==> v.ErrorRow?
    ensures gpuInfo.Failure? ==> v.message == Envelope.FormatError(gpuInfo.error)
    ensures v.NoGpus? <==> gpuInfo.Success? && |gpuInfo.value| == 0
    ensures v.Cards? ==> |v.cards| == |gpuInfo.value|
                         && forall i :: 0 <= i < |v.cards| ==> v.cards[i] == GpuCard(gpuInfo.value[i], i)
  {
    match gpuInfo
    case Failure(e) => ErrorRow(Envelope.FormatError(e))
    case Success(gpus) =>
      if |gpus| == 0 then NoGpus
      else Cards(seq(|gpus|, i requires 0 <= i < |gpus| => GpuCard(gpus[i], i)))
  }
}
