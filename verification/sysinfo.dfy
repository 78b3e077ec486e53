/** The system-information collectors of src-tauri/src/modules/sys_info.rs.
  * The `sysinfo` and NVML library calls are not modelled: what they report
  * comes in as readings, and the model keeps what the collectors do with
  * them (the empty-CPU error, the integer unit conversions, the "Unknown"
  * defaults, the NVML error propagation and the assembly of the sections). */
module SysInfo {
  import opened Wrappers

  datatype SysInfoError = System(message: string) | Nvml(message: string)

  datatype OperatingSystemInfo = OperatingSystemInfo(
    name: string, version: string, kernelVersion: string, hostname: string, uptime: nat)

  datatype CpuInfo = CpuInfo(brand: string, frequency: nat, physicalCores: nat, logicalCores: nat)

  datatype GpuInfo = GpuInfo(
    name: string,
    memoryTotalMb: Option<nat>,
    memoryUsedMb: Option<nat>,
    utilizationPercent: Option<nat>,
    temperatureCelsius: Option<nat>)

  datatype MemoryInfo = MemoryInfo(totalMb: nat, usedMb: nat, freeMb: nat)

  /** A disk as already converted to gigabytes; the floating-point conversion
    * is not modelled. */
  datatype StorageDevice = StorageDevice(name: string, totalGb: real, usedGb: real, availableGb: real)

  datatype StorageInfo = StorageInfo(devices: seq<StorageDevice>)

  /** Every section is its own result. */
  datatype SystemInfo = SystemInfo(
    os: Result<OperatingSystemInfo, SysInfoError>,
    cpu: Result<CpuInfo, SysInfoError>,
    gpu: Result<seq<GpuInfo>, SysInfoError>,
    memory: Result<MemoryInfo, SysInfoError>,
    storage: Result<StorageInfo, SysInfoError>)

  const UnknownText: string := "Unknown"
  const UnknownGpuName: string := "Unknown GPU"
  const NoCpusMessage: string := "No CPUs found"
  const MB_IN_BYTES: nat := 1024 * 1024

  /** `get_os_info`: missing names become "Unknown"; the host name is never
    * read. */
  function GetOsInfo(name: Option<string>, version: Option<string>, kernel: Option<string>,
                     uptime: nat): (r: Result<OperatingSystemInfo, SysInfoError>)
    ensures r.Success?
    ensures r.value.name == (if name.Some? then name.value else UnknownText)
    ensures r.value.version == (if version.Some? then version.value else UnknownText)
    ensures r.value.kernelVersion == (if kernel.Some? then kernel.value else UnknownText)
    ensures r.value.hostname == UnknownText && r.value.uptime == uptime
  {
    Success(OperatingSystemInfo(name.GetOr(UnknownText), version.GetOr(UnknownText),
                                kernel.GetOr(UnknownText), UnknownText, uptime))
  }

  /** What the library reports for one logical CPU. */
  datatype CpuReading = CpuReading(brand: string, frequency: nat)

  /** `get_cpu_info`: the first CPU names the brand and frequency, the list
    * length is the logical core count, and an empty list is an error. */
  function GetCpuInfo(cpus: seq<CpuReading>, physicalCoreCount: Option<nat>): (r: Result<CpuInfo, SysInfoError>)
    ensures r.Failure? <==> |cpus| == 0
    ensures r.Failure? ==> r.error == System(NoCpusMessage)
    ensures r.Success? ==> r.value.logicalCores == |cpus|
                           && r.value.brand == cpus[0].brand && r.value.frequency == cpus[0].frequency
    ensures r.Success? ==> r.value.physicalCores == (if physicalCoreCount.Some? then physicalCoreCount.value else 0)
  {
    if |cpus| == 0 then Failure(System(NoCpusMessage))
    else Success(CpuInfo(cpus[0].brand, cpus[0].frequency, physicalCoreCount.GetOr(0), |cpus|))
  }

  /** `get_memory_info`: each raw figure divided by 1024, rounding down. */
  function GetMemoryInfo(total: nat, used: nat, free: nat): (r: Result<MemoryInfo, SysInfoError>)
    ensures r.Success?
    ensures r.value.totalMb * 1024 <= total < (r.value.totalMb + 1) * 1024
    ensures r.value.usedMb * 1024 <= used < (r.value.usedMb + 1) * 1024
    ensures r.value.freeMb * 1024 <= free < (r.value.freeMb + 1) * 1024
  {
    Success(MemoryInfo(total / 1024, used / 1024, free / 1024))
  }

  /** Rounding down keeps the order of the raw figures. */
  lemma MemoryInfoMonotone(total: nat, used: nat, free: nat)
    requires used <= total
    ensures GetMemoryInfo(total, used, free).value.usedMb <= GetMemoryInfo(total, used, free).value.totalMb
  {
    DivMonotone(used, total, 1024);
  }

  /** Used and free never add up to more than the total once converted, when
    * they did not before. */
  lemma MemoryInfoParts(total: nat, used: nat, free: nat)
    requires used + free <= total
    ensures var m := GetMemoryInfo(total, used, free).value; m.usedMb + m.freeMb <= m.totalMb
  {
    var m := GetMemoryInfo(total, used, free).value;
    assert (m.usedMb + m.freeMb) * 1024 <= used + free;
    DivMonotone((m.usedMb + m.freeMb) * 1024, total, 1024);
  }

  lemma DivMonotone(a: nat, b: nat, k: nat)
    requires a <= b && k > 0
    ensures a / k <= b / k
  {
    var q := b / k;
    assert a < (q + 1) * k;
    MulLessCancel(a / k, q + 1, k);
  }

  lemma MulLessCancel(x: nat, y: nat, k: nat)
    requires k > 0 && x * k < y * k
    ensures x < y
  {
    assert (y - x) * k > 0;
  }

  /** NVML's memory figures for one device, in bytes. */
  datatype GpuMemory = GpuMemory(total: nat, used: nat)

  /** What NVML reports for one device; `None` where a query failed. */
  datatype DeviceReading = DeviceReading(
    name: Option<string>, memory: Option<GpuMemory>, utilization: Option<nat>, temperature: Option<nat>)

  /** One `GpuInfo`: megabytes rounded down, "Unknown GPU" for a missing
    * name, both memory fields missing together. */
  function ToGpuInfo(d: DeviceReading): (g: GpuInfo)
    ensures g.name == (if d.name.Some? then d.name.value else UnknownGpuName)
    ensures g.memoryTotalMb.None? <==> d.memory.None?
    ensures g.memoryUsedMb.None? <==> d.memory.None?
    ensures d.memory.Some? ==> g.memoryTotalMb.value * MB_IN_BYTES <= d.memory.value.total
                                < (g.memoryTotalMb.value + 1) * MB_IN_BYTES
    ensures d.memory.Some? ==> g.memoryUsedMb.value * MB_IN_BYTES <= d.memory.value.used
                                < (g.memoryUsedMb.value + 1) * MB_IN_BYTES
    ensures g.utilizationPercent == d.utilization && g.temperatureCelsius == d.temperature
  {
    GpuInfo(
      d.name.GetOr(UnknownGpuName),
      if d.memory.Some? then Some(d.memory.value.total / MB_IN_BYTES) else None,
      if d.memory.Some? then Some(d.memory.value.used / MB_IN_BYTES) else None,
      d.utilization, d.temperature)
  }

  /** The loop of `get_gpu_info` over the first `n` device indices: the
    * first lookup that fails ends the collection with its NVML error. */
  function CollectGpus(lookup: nat -> Result<DeviceReading, string>, n: nat): (r: Result<seq<GpuInfo>, SysInfoError>)
    ensures r.Success? <==> forall k :: 0 <= k < n ==> lookup(k).Success?
    ensures r.Success? ==> |r.value| == n
                           && forall k :: 0 <= k < n ==> r.value[k] == ToGpuInfo(lookup(k).value)
    ensures r.Failure? ==> exists j :: 0 <= j < n && FirstFailure(lookup, j) && r.error == Nvml(lookup(j).error)
  {
    if n == 0 then Success([])
    else
      match CollectGpus(lookup, n - 1)
      case Failure(e) => Failure(e)
      case Success(gpus) =>
        match lookup(n - 1)
        case Failure(msg) =>
          assert FirstFailure(lookup, n - 1);
          Failure(Nvml(msg))
        case Success(d) => Success(gpus + [ToGpuInfo(d)])
  }

  /** Index `j` is the first device whose lookup fails. */
  predicate FirstFailure(lookup: nat -> Result<DeviceReading, string>, j: nat)
  {
    lookup(j).Failure? && forall k :: 0 <= k < j ==> lookup(k).Success?
  }

  /** What NVML answered at start-up. */
  datatype NvmlReadings = NvmlReadings(
    init: Result<(), string>, count: Result<nat, string>, lookup: nat -> Result<DeviceReading, string>)

  /** `get_gpu_info`: initialisation, the device count and every lookup must
    * succeed; any failure becomes an NVML error. */
  function GetGpuInfo(nvml: NvmlReadings): (r: Result<seq<GpuInfo>, SysInfoError>)
    ensures nvml.init.Failure? ==> r == Failure(Nvml(nvml.init.error))
    ensures nvml.init.Success? && nvml.count.Failure? ==> r == Failure(Nvml(nvml.count.error))
    ensures r.Success? ==> nvml.init.Success? && nvml.count.Success? && |r.value| == nvml.count.value
    ensures nvml.init.Success? && nvml.count.Success? ==> r == CollectGpus(nvml.lookup, nvml.count.value)
    ensures r.Failure? ==> r.error.Nvml?
  {
    match nvml.init
    case Failure(e) => Failure(Nvml(e))
    case Success(_) =>
      match nvml.count
      case Failure(e) => Failure(Nvml(e))
      case Success(count) => CollectGpus(nvml.lookup, count)
  }

  /** Everything the collectors read. */
  datatype Readings = Readings(
    osName: Option<string>, osVersion: Option<string>, kernelVersion: Option<string>, uptime: nat,
    cpus: seq<CpuReading>, physicalCoreCount: Option<nat>,
    nvml: NvmlReadings,
    totalMemory: nat, usedMemory: nat, freeMemory: nat,
    disks: seq<StorageDevice>)

  /** `get_storage_info`, which cannot fail. */
  function GetStorageInfo(disks: seq<StorageDevice>): (r: Result<StorageInfo, SysInfoError>)
    ensures r.Success? && r.value.devices == disks
  {
    Success(StorageInfo(disks))
  }

  /** `get_system_info`: one collector per section. */
  function GetSystemInfo(r: Readings): (info: SystemInfo)
    ensures info.os.Success? && info.memory.Success? && info.storage.Success?
    ensures info.cpu.Failure? <==> |r.cpus| == 0
    ensures info.gpu.Failure? ==> info.gpu.error.Nvml?
    ensures info.os == GetOsInfo(r.osName, r.osVersion, r.kernelVersion, r.uptime)
    ensures info.cpu == GetCpuInfo(r.cpus, r.physicalCoreCount)
    ensures info.gpu == GetGpuInfo(r.nvml)
    ensures info.memory == GetMemoryInfo(r.totalMemory, r.usedMemory, r.freeMemory)
    ensures info.storage == GetStorageInfo(r.disks)
  {
    SystemInfo(
      GetOsInfo(r.osName, r.osVersion, r.kernelVersion, r.uptime),
      GetCpuInfo(r.cpus, r.physicalCoreCount),
      GetGpuInfo(r.nvml),
      GetMemoryInfo(r.totalMemory, r.usedMemory, r.freeMemory),
      GetStorageInfo(r.disks))
  }

  /** Each section depends on its own readings only: two sets of readings
    * that agree on a section's inputs give the same section, whatever the
    * other collectors met. */
  lemma SectionsIndependent(a: Readings, b: Readings)
    ensures (a.osName, a.osVersion, a.kernelVersion, a.uptime) == (b.osName, b.osVersion, b.kernelVersion, b.uptime)
            ==> GetSystemInfo(a).os == GetSystemInfo(b).os
    ensures (a.cpus, a.physicalCoreCount) == (b.cpus, b.physicalCoreCount)
            ==> GetSystemInfo(a).cpu == GetSystemInfo(b).cpu
    ensures a.nvml == b.nvml ==> GetSystemInfo(a).gpu == GetSystemInfo(b).gpu
    ensures (a.totalMemory, a.usedMemory, a.freeMemory) == (b.totalMemory, b.usedMemory, b.freeMemory)
            ==> GetSystemInfo(a).memory == GetSystemInfo(b).memory
    ensures a.disks == b.disks ==> GetSystemInfo(a).storage == GetSystemInfo(b).storage
  {
  }
}
