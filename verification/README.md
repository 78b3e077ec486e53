# Desktop agent: Docker status and system overview, modelled in Dafny

This project models the logic of a desktop agent. The agent has a Rust (Tauri) backend and a React front end. Two features are modelled.

**Docker status.** The backend keeps one `DockerStatus` record up to date while a monitoring loop:

- connects to the Docker engine;
- follows its event stream;
- pings it on a timer;
- checks for updates.

A status-bar item in the front end fetches that record and turns it into a tooltip. The model covers:

- every write to the record: initial state, connect success and failure, health check, event-stream loss, and the update-flag writes;
- the retry backoff and the update-check gate;
- the hand-written version comparator;
- parsing of the Docker Desktop version from `reg` and `wmic` output;
- the front-end fetch state and tooltip.

**System overview.** The backend collects OS, CPU, GPU, memory and storage readings. Each section is its own Rust `Result`. The front end unwraps the serialised results, then classifies and displays them. The model covers:

- the collectors, with the library readings as inputs;
- the helpers that take the serialised results apart, over a small JSON value type with JavaScript's truthiness and `in` rules;
- the display classifiers of the GPU, performance and network sections.

Modules and files:

| module | file | models |
|---|---|---|
| `Wrappers` | wrappers.dfy | `Option` and `Result` |
| `Strings` | strings.dfy | the Rust/JavaScript string operations the code relies on: `trim`, `trim_matches`, `split`, `join`, `lines`, `split_whitespace`, `contains`, JavaScript's code-unit `<`, `String(n)` |
| `Versions` | versions.dfy | `compare_versions` as written |
| `VersionsIntended` | versions.dfy | the comparator with only trailing zero parts dropped |
| `VersionExamples` | versions.dfy | the input that tells those two apart |
| `DesktopVersion` | desktopversion.dfy | `get_docker_desktop_version` over the commands' stdout |
| `DockerBackend` | dockerbackend.dfy | the status record, every writer of it, the monitoring events and their invariant |
| `DockerWidget` | dockerwidget.dfy | `DockerStatus.tsx`: fetch state, update status, tooltip |
| `SysInfo` | sysinfo.dfy | `sys_info.rs` collectors |
| `Envelope` | envelope.dfy | `systemInfoTypes.ts` helpers and the serialised form of backend results |
| `GpuDisplay` | gpudisplay.dfy | `GpuSection.tsx` |
| `Performance` | performance.dfy | `PerformanceSection.tsx` |
| `Network` | network.dfy | `NetworkSection.tsx` |

How each source concept is represented:

- **Time.** Every timestamp, whether a `chrono` RFC 3339 string or an `Instant`, is one abstract `now: nat` in milliseconds.
- **Outside results.** The Docker daemon's answers, the library readings and the commands' output are parameters.
- **The monitoring loop** is a sequence of `Event`s.
- **`DockerStatus`.** `DockerBackend.Inv` is the invariant of the record the loop owns:
  - `is_running` holds exactly when `error` is `None`;
  - every error text is one of the fixed messages;
  - a running record has a Docker handle;
  - the container count is an `i32`;
  - the retry counter is a `u32`.

  `DockerBackend.StepKeepsInv` shows that every event keeps the invariant, and `DockerBackend.RunningIffNoError` carries it over any run.

Notes on the code:

- **Tooltip version line.** The front end reads a `version` field that the backend never sends: it serialises `engine_version`. So the version line never appears (`DockerWidget.RefreshedTooltipHasNoVersionLine`).
- **Update check.** It compares version strings by characters (`DockerWidget.UpdateStatusIsLexicographic`).
- **`wmic` version.** The `wmic` path takes the text between the first and the second `=`, not everything after the first.

## Model

| member | source | states |
|---|---|---|
| Versions.ParseU32 | src-tauri/src/modules/docker.rs:306 | `u32` parsing accepts exactly one or more ASCII digits, optionally after one `+`, whose value fits in `u32`, and yields that value |
| Versions.ParseU32Decimal | src-tauri/src/modules/docker.rs:306 | the decimal text of any number, with or without a `+`, parses back to that number exactly when it fits in `u32` |
| Versions.ParseComponents | src-tauri/src/modules/docker.rs:304-312 | with no parseable part there are no values; with every part parseable there is one value per part, each the part's parsed value, in order; at most one value per part, each within `u32` (the two conditions are recursive predicates whose quantified forms are `NoPartParsesMeans` and `EveryPartParsesMeans`) |
| Versions.ParseComponentsAppend | src-tauri/src/modules/docker.rs:304-312 | parsing a concatenation gives the values of the first list followed by those of the second, so the values are those of the parseable parts in order |
| Versions.SkipZeroParts | src-tauri/src/modules/docker.rs:285-298 | parts with no `"0"` at index 3 or later are kept whole (the condition `NoSkippedZero`, in quantified form by `NoSkippedZeroMeans`); a first part below index 3 survives; never more parts than the input, each one of its parts |
| Versions.SkipZeroPartsShape | src-tauri/src/modules/docker.rs:285-298 | every part at an index below 3 survives in its place, and no `"0"` survives at index 3 or later |
| Versions.SkipZeroPartsAppend | src-tauri/src/modules/docker.rs:289-295 | each part is kept or skipped by its own index alone: the loop over a concatenation is the loop over each half |
| Versions.NormalizeVersion | src-tauri/src/modules/docker.rs:285-298 | splitting the normalised string on dots gives exactly the parts the loop kept |
| Versions.NormalizeVersionIdempotent | src-tauri/src/modules/docker.rs:285-298 | normalising a normalised version changes nothing |
| Versions.GreaterFrom | src-tauri/src/modules/docker.rs:320-334 | the comparison loop answers true exactly when `latest` exceeds `current` in the zero-padded lexicographic order |
| Versions.CompareVersions | src-tauri/src/modules/docker.rs:279-335 | true exactly when both sides have a numeric component and `latest` is greater in the zero-padded order |
| Versions.CompareVersionsIrreflexive | src-tauri/src/modules/docker.rs:320-334 | a version is never newer than itself |
| Versions.CompareVersionsAsymmetric | src-tauri/src/modules/docker.rs:320-334 | two versions are never each newer than the other |
| Versions.CompareVersionsTransitive | src-tauri/src/modules/docker.rs:320-334 | "newer" is transitive |
| Versions.PaddedGreaterIgnoresTrailingZeros | src-tauri/src/modules/docker.rs:322-324 | missing positions count as 0: appending zero components to either side changes nothing |
| Versions.NoComponentsNeverNewer | src-tauri/src/modules/docker.rs:314-317 | a side with no numeric component makes the answer false in both directions |
| Versions.ComponentsOfKeptParts | src-tauri/src/modules/docker.rs:297-312 | re-splitting the normalised string gives back exactly the kept parts |
| Versions.CleanVersionStrips | src-tauri/src/modules/docker.rs:280-282 | surrounding whitespace and any number of leading `v`s are ignored |
| Versions.CleanVersionOfPlain | src-tauri/src/modules/docker.rs:280-282 | a string with no surrounding whitespace and no leading `v` is used as it is |
| VersionsIntended.DropTrailingZeroParts | src-tauri/src/modules/docker.rs:284-298 | the corrected loop removes only a suffix of `"0"` parts and keeps at least three parts |
| VersionsIntended.CompareVersionsIntended | src-tauri/src/modules/docker.rs:279-335 | the comparator with the corrected normalisation, stated through the padded order |
| VersionsIntended.IntendedComparesAllComponents | src-tauri/src/modules/docker.rs:284-298 | with the corrected normalisation, the answer is the padded order on every component of the inputs: normalising changes nothing |
| VersionExamples.FourthZeroSkipped | src-tauri/src/modules/docker.rs:289-295 | as written, a `"0"` at index 3 is skipped even when a non-zero part follows it |
| VersionExamples.MiddleZeroShiftsComponents | src-tauri/src/modules/docker.rs:284-335 | "1.2.3.0.5" is reported newer than "1.2.3.4", although it is older component by component; the corrected comparator says no |
| DesktopVersion.TruncateVersion | src-tauri/src/modules/docker.rs:835-841 | the result's dot-separated parts are the first three parts of the input, and the result is a prefix of the input |
| DesktopVersion.TruncateVersionShape | src-tauri/src/modules/docker.rs:835-843 | at most three components; non-empty for a non-empty input; a version of at most three components is unchanged |
| DesktopVersion.FirstLineWith | src-tauri/src/modules/docker.rs:826-829 | a line of the output that contains the key and comes before every other such line; none exactly when no line contains the key |
| DesktopVersion.FirstLineAt | src-tauri/src/modules/docker.rs:826-829 | whichever line first contains the key is the line found |
| DesktopVersion.LastWord | src-tauri/src/modules/docker.rs:830 | a non-empty whitespace-free word with whitespace or the line start before it and only whitespace after it; absent exactly when the line is all whitespace |
| DesktopVersion.LastWordAt | src-tauri/src/modules/docker.rs:830 | any word placed that way is the word found |
| DesktopVersion.LineToken | src-tauri/src/modules/docker.rs:830-832 | the last word with the quotes around it trimmed, or empty without a word; it has no whitespace and neither starts nor ends with a quote |
| DesktopVersion.RegistryToken | src-tauri/src/modules/docker.rs:826-832 | the token of the first `CurrentVersion` line, or empty without one |
| DesktopVersion.FromRegistry | src-tauri/src/modules/docker.rs:826-846 | the registry path yields a value exactly when the cleaned token is non-empty, and the value is the token cut to three components |
| DesktopVersion.RegistryVersionOfOutput | src-tauri/src/modules/docker.rs:822-846 | for any output whose first `CurrentVersion` line ends in a quoted token followed by whitespace, the registry path yields that token cut to three components |
| DesktopVersion.WmicToken | src-tauri/src/modules/docker.rs:867-869 | the second `=`-separated field of the first `Version=` line, trimmed, or empty without one; it has no `=` and no surrounding whitespace |
| DesktopVersion.FromWmic | src-tauri/src/modules/docker.rs:867-883 | the `wmic` path yields a value exactly when its token is non-empty, and the value is the token cut to three components |
| DesktopVersion.WmicVersionOfOutput | src-tauri/src/modules/docker.rs:865-883 | for any output whose first `Version=` line has at least two `=`-separated fields, the `wmic` path yields the second field, trimmed and cut to three components |
| DesktopVersion.DetectDesktopVersion | src-tauri/src/modules/docker.rs:811-890 | the registry result when there is one, otherwise the `wmic` result; any result is non-empty with at most three components |
| DockerBackend.InitialState | src-tauri/src/modules/docker.rs:100-111 | no handle, not running, "Initializing...", no versions, update flags, container count or check time, retry count 0, never checked for updates, the default configuration |
| DockerBackend.ErrorMessage | src-tauri/src/modules/docker.rs:468-477 | a failed connection's message is one of the six fixed texts |
| DockerBackend.ErrorMessageByKind | src-tauri/src/modules/docker.rs:468-477 | two errors get the same message exactly when they are of the same kind, so every `ConnectionFailed` detail gives "Docker connection failed" |
| DockerBackend.AsI32 | src-tauri/src/modules/docker.rs:581 | `len() as i32` is in the `i32` range, is the length itself when that fits, and agrees with it modulo 2^32 |
| DockerBackend.SatInc | src-tauri/src/modules/docker.rs:496 | the retry counter goes up by one and sticks at `u32::MAX` |
| DockerBackend.RetryDelayMs | src-tauri/src/modules/docker.rs:494-507 | the sleep after a failure is between 500 and 4000 ms, and exactly 500 ms once the count reaches `max_retries` |
| DockerBackend.RetryDelayMonotone | src-tauri/src/modules/docker.rs:505 | below the limit, a later retry never waits less |
| DockerBackend.DefaultRetrySchedule | src-tauri/src/modules/docker.rs:494-507 | with the default of three retries, failures 1 to 4 wait 1000, 2000, 500 and 500 ms |
| DockerBackend.ShouldCheckForUpdatesMeaning | src-tauri/src/modules/docker.rs:521-528 | updates are checked when they never were, or when at least one interval has passed since the last check |
| DockerBackend.EngineVersion | src-tauri/src/modules/docker.rs:557-566 | each of version, API version, OS and architecture is the daemon's value, or "Unknown" when it gave none |
| DockerBackend.ConnectedStatus | src-tauri/src/modules/docker.rs:621-634 | after a connection: running, no error, the engine and desktop versions, both update flags cleared, the container count when known, the check time |
| DockerBackend.TryConnect | src-tauri/src/modules/docker.rs:538-639 | a client failure, timeout or version failure maps to `ConnectionFailed`, `Timeout` or `NotRunning` and changes nothing; success installs the handle and the connected record built from the daemon's reply, the detected desktop version and the container count, and keeps the retry count, config and update-check time |
| DockerBackend.ConnectFailedStatus | src-tauri/src/modules/docker.rs:479-490 | a failed connection leaves the record not running, with the error's message, both versions, both update flags and the container count cleared |
| DockerBackend.MarkLost | src-tauri/src/modules/docker.rs:733-760 | a lost connection changes a running record only, and only in its running flag, error, container count and check time; versions and update flags survive |
| DockerBackend.HealthCheck | src-tauri/src/modules/docker.rs:689-762 | with no handle, nothing changes and the result is `ConnectionLost`; a ping that answers makes the record running with no error, the container count and the check time; a failed ping marks the record lost with "Docker is not responding" and reports `ConnectionLost`; a timeout marks it lost with the timeout text and reports `Timeout`; versions and update flags never change |
| DockerBackend.MonitorEvents | src-tauri/src/modules/docker.rs:642-686 | event monitoring always ends in `ConnectionLost`, leaves everything alone without a handle, marks the record lost with the reconnecting text when the stream breaks first, with the not-responding or timeout text when the first event's health check fails or times out, and never changes versions or update flags |
| DockerBackend.MonitorAllPingsOk | src-tauri/src/modules/docker.rs:656-662 | while every event's health check answers, monitoring leaves the record running with no error, holding the last answer's container count and the check time |
| DockerBackend.MonitorRunningIffAllPingsOk | src-tauri/src/modules/docker.rs:654-683 | with a handle, monitoring ends with the record running exactly when every event's health check answered |
| DockerBackend.MonitorStopsAtFirstFailure | src-tauri/src/modules/docker.rs:654-683 | monitoring stops at the first unanswered event, after any number of answered ones: the record ends not running, and one that was running then is marked lost with that event's text (not responding, timeout, or reconnecting for a broken stream), no container count and the check time |
| DockerBackend.BackgroundUpdateStatus | src-tauri/src/modules/docker.rs:595-619 | the spawned probe overwrites a flag only with a definite answer, and touches nothing else |
| DockerBackend.CheckForUpdates | src-tauri/src/modules/docker.rs:338-399 | the periodic check writes both flags unconditionally: a flag is set exactly when its version is known and its probe answered; the check time is recorded, and every other field of the record and the configuration are kept |
| DockerBackend.RetryStep | src-tauri/src/modules/docker.rs:444-508 | a successful retry resets the counter, keeps the configuration and installs the connected record's engine and desktop versions and update flags; a failed one bumps the counter saturating, writes the failure record and waits the back-off of the bumped count |
| DockerBackend.InitialStateInv | src-tauri/src/modules/docker.rs:100-111 | the initial record satisfies the invariant |
| DockerBackend.HealthCheckKeepsInv | src-tauri/src/modules/docker.rs:721-760 | both outcomes of a health check keep the invariant |
| DockerBackend.MonitorEventsKeepsInv | src-tauri/src/modules/docker.rs:656-685 | event monitoring keeps the invariant, event by event |
| DockerBackend.TryConnectKeepsInv | src-tauri/src/modules/docker.rs:621-634 | a successful connection keeps the invariant |
| DockerBackend.StepKeepsInv | src-tauri/src/modules/docker.rs:442-534 | every event of the monitor keeps the invariant |
| DockerBackend.Step | src-tauri/src/modules/docker.rs:418-534 | a failed initial connection changes nothing; a successful one keeps the retry count and configuration and installs the connected versions; retry and health ticks are handled by their handlers; the update check runs, and records its time, exactly when it never ran or its interval has elapsed, and otherwise nothing changes; finished probes only rewrite the status |
| DockerBackend.Run | src-tauri/src/modules/docker.rs:429-535 | any sequence of events from an invariant state ends in an invariant state |
| DockerBackend.RunningIffNoError | src-tauri/src/modules/docker.rs:102-111 | from the initial state, after any events, the record is running exactly when it carries no error |
| DockerBackend.RunningWithoutEngineVersion | src-tauri/src/modules/docker.rs:479-490 | a failed reconnection keeps the old handle, so a later ping can report Docker running with no engine version |
| DockerBackend.GetDockerVersion | src-tauri/src/modules/docker.rs:782-791 | the engine details when known, otherwise "Docker version not available" |
| DockerWidget.InitialWidget | src/components/UI/StatusBar/Items/DockerStatus.tsx:28-33 | on mount: loading, no error, no status, no version |
| DockerWidget.BeginStatusFetch | src/components/UI/StatusBar/Items/DockerStatus.tsx:37-38 | starting a status fetch sets loading and clears the error |
| DockerWidget.StatusFetched | src/components/UI/StatusBar/Items/DockerStatus.tsx:39-46 | success stores the status; a rejection stores the error and drops the status; loading ends either way |
| DockerWidget.FetchStatus | src/components/UI/StatusBar/Items/DockerStatus.tsx:35-47 | after a fetch, the status is present exactly when the call succeeded, and then there is no error |
| DockerWidget.FetchVersion | src/components/UI/StatusBar/Items/DockerStatus.tsx:49-56 | success stores the version; a rejection sets it to null instead of keeping the old one; nothing else changes |
| DockerWidget.Refresh | src/components/UI/StatusBar/Items/DockerStatus.tsx:58-61 | the status fetch completes before the version fetch, so the status comes from the first and the version from the second |
| DockerWidget.UpdateStatus | src/components/UI/StatusBar/Items/DockerStatus.tsx:69-76 | "unknown" exactly without a version; "up to date" exactly for a non-empty version not below "20.0.0" in string order |
| DockerWidget.UpToDateIsUpwardClosed | src/components/UI/StatusBar/Items/DockerStatus.tsx:72 | a version not below an up-to-date one in string order is up to date too |
| DockerWidget.UpdateStatusIsLexicographic | src/components/UI/StatusBar/Items/DockerStatus.tsx:72 | "9.0.0" counts as up to date and "100.0.0" does not |
| DockerWidget.TooltipText | src/components/UI/StatusBar/Items/DockerStatus.tsx:78-102 | loading gives "Checking Docker status..."; otherwise "Docker is not running" unless there is no error and a running status, when the text starts with "Docker is running" and a line break |
| DockerWidget.RunningTooltipLines | src/components/UI/StatusBar/Items/DockerStatus.tsx:92-101 | a running tooltip splits into "Docker is running", a version line exactly when the status carries a version, and the update status |
| DockerWidget.FromBackend | src/components/UI/StatusBar/Items/DockerStatus.tsx:9-18 | the backend's record, read through the front end's declared type, has no `version` field |
| DockerWidget.RefreshedTooltipHasNoVersionLine | src/components/UI/StatusBar/Items/DockerStatus.tsx:95-97 | after a refresh against the backend, the tooltip shows running exactly when the backend does, never has a version line, and the update status is unknown exactly when no engine version is known |
| SysInfo.GetOsInfo | src-tauri/src/modules/sys_info.rs:82-98 | never fails; missing name, version or kernel become "Unknown"; the host name is always "Unknown" |
| SysInfo.GetCpuInfo | src-tauri/src/modules/sys_info.rs:101-122 | fails with `System("No CPUs found")` exactly for an empty CPU list; otherwise the first CPU gives brand and frequency, the list length the logical cores, and physical cores default to 0 |
| SysInfo.GetMemoryInfo | src-tauri/src/modules/sys_info.rs:125-137 | each figure is the raw one divided by 1024, rounded down |
| SysInfo.MemoryInfoMonotone | src-tauri/src/modules/sys_info.rs:126-127 | raw used at most total implies converted used at most total |
| SysInfo.MemoryInfoParts | src-tauri/src/modules/sys_info.rs:126-128 | used plus free within total survives the conversion |
| SysInfo.ToGpuInfo | src-tauri/src/modules/sys_info.rs:180-196 | megabytes are bytes divided by 1048576, rounded down; both memory fields are missing together; the name defaults to "Unknown GPU" |
| SysInfo.CollectGpus | src-tauri/src/modules/sys_info.rs:175-198 | succeeds exactly when every device lookup does, with one entry per device in order; otherwise fails with the NVML error of the first failed lookup |
| SysInfo.GetGpuInfo | src-tauri/src/modules/sys_info.rs:169-199 | an init or count failure fails with its NVML error; after both succeed, the result is collecting `count` devices; every failure is an NVML error |
| SysInfo.GetStorageInfo | src-tauri/src/modules/sys_info.rs:140-166 | never fails and lists the disks as read |
| SysInfo.GetSystemInfo | src-tauri/src/modules/sys_info.rs:203-213 | each section is exactly its own collector's result on the same readings; OS, memory and storage always succeed; the CPU section fails exactly without CPUs; a GPU failure is an NVML error |
| SysInfo.SectionsIndependent | src-tauri/src/modules/sys_info.rs:206-212 | each section depends only on its own readings, so one failing collector cannot change another section |
| Envelope.UnwrapResult | src/components/Pages/SystemOverview/systemInfoTypes.ts:95-101 | `.Ok` of an object with an `Ok` key (even when `Err` is present), else `.Err` of one with an `Err` key, else the value unchanged |
| Envelope.IsErrorMeaning | src/components/Pages/SystemOverview/systemInfoTypes.ts:73-80 | `isError` holds exactly for plain objects with a `System` or `Nvml` key; `isSuccess` is its negation |
| Envelope.GetErrorMessage | src/components/Pages/SystemOverview/systemInfoTypes.ts:83-87 | the `System` payload first, then the `Nvml` payload, else "Unknown error"; a TypeError for anything that is not an object |
| Envelope.FormatError | src/components/Pages/SystemOverview/systemInfoTypes.ts:90-92 | the same answer as `getErrorMessage`: a payload of an error object, a TypeError for a non-object |
| Envelope.SerializeError | src-tauri/src/modules/sys_info.rs:11-17 | a backend error serialises as an object whose one key is the variant name, `System` or `Nvml`, and whose value is the message |
| Envelope.SerializeErrorInjective | src-tauri/src/modules/sys_info.rs:11-17 | two errors with the same serialised form are the same error |
| Envelope.SerializeResult | src-tauri/src/modules/sys_info.rs:73-79 | each section serialises as `{"Ok": value}` or `{"Err": error}` |
| Envelope.UnwrappedErrorIsError | src/components/Pages/SystemOverview/systemInfoTypes.ts:95-101 | a serialised backend error, unwrapped, passes `isError`, and its message is the backend's text |
| Envelope.UnwrappedSuccessIsPayload | src/components/Pages/SystemOverview/systemInfoTypes.ts:97 | a serialised success, unwrapped, is the payload |
| Envelope.UnwrapErrOfErrorShape | src/components/Pages/SystemOverview/systemInfoTypes.ts:98 | unwrapping `{Err: e}` for an error-shaped `e` gives a value `isError` accepts |
| Envelope.FormatErrorOfBackendError | src/components/Pages/SystemOverview/systemInfoTypes.ts:90-92 | the error text for a serialised backend error is the backend's message |
| GpuDisplay.GpuDisplayName | src/components/Pages/SystemOverview/Sections/GpuSection.tsx:17-31 | the fixed label of the four known device types, otherwise "GPU " and the one-based index |
| GpuDisplay.GenericNamesDistinct | src/components/Pages/SystemOverview/Sections/GpuSection.tsx:28-29 | GPUs without a known type get the same title exactly when they have the same index |
| GpuDisplay.GenericNameIsNotALabel | src/components/Pages/SystemOverview/Sections/GpuSection.tsx:17-31 | a generic title never equals a device-type label |
| GpuDisplay.RenameApi | src/components/Pages/SystemOverview/Sections/GpuSection.tsx:37-53 | `Dx12`, `Dx11`, `Gl` and `BrowserWebGpu` are renamed; every other name is kept |
| GpuDisplay.RenameApiIdempotent | src/components/Pages/SystemOverview/Sections/GpuSection.tsx:37-53 | renaming a renamed name changes nothing |
| GpuDisplay.FormatBackendDisplay | src/components/Pages/SystemOverview/Sections/GpuSection.tsx:33-56 | the displayed entries are the renamed input entries, as many and in the same order |
| GpuDisplay.FormatBackendIdentity | src/components/Pages/SystemOverview/Sections/GpuSection.tsx:35-55 | with nothing to rename, the display string is the input |
| GpuDisplay.FormatBackendIdempotent | src/components/Pages/SystemOverview/Sections/GpuSection.tsx:33-56 | formatting twice is formatting once |
| GpuDisplay.GpuCard | src/components/Pages/SystemOverview/Sections/GpuSection.tsx:68-116 | a card has the model row, a driver row exactly when the driver is non-empty, not "Unavailable" and not a "32.0" version, and a last API row exactly when the backend is non-empty and not "Unknown" |
| GpuDisplay.GpuSectionView | src/components/Pages/SystemOverview/Sections/GpuSection.tsx:61-126 | an error row exactly for an `Err`, a notice exactly for an empty list, otherwise one card per GPU in order |
| Performance.Tier | src/components/Pages/SystemOverview/Sections/PerformanceSection.tsx:37-40 | the 80/60/40 tiers |
| Performance.ScoreColor | src/components/Pages/SystemOverview/Sections/PerformanceSection.tsx:17-20 | gray exactly for an absent or zero score, blue otherwise |
| Performance.ProgressColor | src/components/Pages/SystemOverview/Sections/PerformanceSection.tsx:22-25 | gray exactly for an absent or zero score, blue otherwise |
| Performance.ScoreIcon | src/components/Pages/SystemOverview/Sections/PerformanceSection.tsx:27-33 | a question mark for an absent or zero score, otherwise the icon of its tier |
| Performance.PerformanceLevel | src/components/Pages/SystemOverview/Sections/PerformanceSection.tsx:35-41 | unavailable exactly for an absent or non-positive score, otherwise the name of its tier |
| Performance.LevelMonotone | src/components/Pages/SystemOverview/Sections/PerformanceSection.tsx:37-40 | among positive scores a higher score never gets a lower level |
| Performance.IconAgreesWithLevel | src/components/Pages/SystemOverview/Sections/PerformanceSection.tsx:27-41 | icon and level pick the same tier for every positive score |
| Performance.NegativeScoreDisagrees | src/components/Pages/SystemOverview/Sections/PerformanceSection.tsx:27-41 | a negative score gets the snail icon while its level is unavailable |
| Performance.PerformanceScore | src/components/Pages/SystemOverview/Sections/PerformanceSection.tsx:43-48 | "unavailable" exactly for null, undefined or a non-positive score |
| Performance.ScoreAndLevelAgree | src/components/Pages/SystemOverview/Sections/PerformanceSection.tsx:35-48 | score text and level agree on whether a score is available |
| Performance.ComponentCard | src/components/Pages/SystemOverview/Sections/PerformanceSection.tsx:110-139 | "Benchmark not available" exactly for an absent or zero score, otherwise the score with its level |
| Performance.CardsAreBlue | src/components/Pages/SystemOverview/Sections/PerformanceSection.tsx:110-133 | inside a benchmark card the colour helpers always answer blue |
| Performance.OverallBarAsWritten | src/components/Pages/SystemOverview/Sections/PerformanceSection.tsx:82-97 | as written, the bar guard prints a bare "0" exactly for a zero score |
| Performance.ZeroScoreShowsZero | src/components/Pages/SystemOverview/Sections/PerformanceSection.tsx:82 | a zero overall score leaves a stray "0" under the heading |
| Performance.OverallBar | src/components/Pages/SystemOverview/Sections/PerformanceSection.tsx:82-97 | the bar is drawn exactly for a truthy score, always blue, and never as a stray "0" |
| Performance.OverallBarsAgree | src/components/Pages/SystemOverview/Sections/PerformanceSection.tsx:82 | the two bars differ only for a zero score |
| Network.SpeedTier | src/components/Pages/SystemOverview/Sections/NetworkSection.tsx:37-56 | the strict 100/25/10 tiers: tier 3 exactly above 100, at least 2 exactly above 25, at least 1 exactly above 10; an absent speed is tier 0 |
| Network.SpeedTierMonotone | src/components/Pages/SystemOverview/Sections/NetworkSection.tsx:37-56 | a faster download is never in a lower tier |
| Network.StatusIcon | src/components/Pages/SystemOverview/Sections/NetworkSection.tsx:37-56 | the icon is the one of the speed's tier |
| Network.StatusColor | src/components/Pages/SystemOverview/Sections/NetworkSection.tsx:58-77 | the colour is the one of the speed's tier |
| Network.IconAndColorAgree | src/components/Pages/SystemOverview/Sections/NetworkSection.tsx:37-77 | icon and colour always pick the same tier, and an absent or zero speed is Basic |
| Network.FormatNetworkSpeed | src/components/Pages/SystemOverview/Sections/NetworkSection.tsx:25-30 | "Gbps" exactly from 1000 up, with the figure divided by 1000; "Mbps" below |
| Network.LatencySeverity | src/components/Pages/SystemOverview/Sections/NetworkSection.tsx:125-127 | "warning" exactly above 100 ms |
| Network.SpeedNodes | src/components/Pages/SystemOverview/Sections/NetworkSection.tsx:104-130 | the written speed block has a stray "0" exactly when some figure is zero, a latency row exactly for a truthy latency, and three nodes when all three figures are present |
| Network.SpeedNodesContent | src/components/Pages/SystemOverview/Sections/NetworkSection.tsx:104-130 | the written block has one node per present figure, in the order download, upload, latency; each is the row with the formatted speed (or the latency and its severity), or the stray "0" for a zero figure |
| Network.NumberGuard | src/components/Pages/SystemOverview/Sections/NetworkSection.tsx:105-111 | `{n && <Row/>}` draws nothing for an absent number, a bare "0" for zero, the row otherwise |
| Network.ZeroDownloadShowsZero | src/components/Pages/SystemOverview/Sections/NetworkSection.tsx:105-111 | a zero download speed puts a stray "0" in the speed block |
| Network.TruthyRow | src/components/Pages/SystemOverview/Sections/NetworkSection.tsx:105-111 | the corrected guard draws the row exactly for a truthy number |
| Network.SpeedRows | src/components/Pages/SystemOverview/Sections/NetworkSection.tsx:104-130 | the corrected speed block has no stray "0" and one row per truthy figure, in the order download, upload, latency: the Download Speed and Upload Speed rows show the formatted speeds, and the latency row, present exactly for a truthy latency, has "warning" exactly above 100 ms |
| Network.GuardsAgree | src/components/Pages/SystemOverview/Sections/NetworkSection.tsx:105-129 | the written guard adds a "0" exactly for a zero figure, and otherwise draws what the corrected one draws |
| Network.SpeedRowsDropOnlyZeros | src/components/Pages/SystemOverview/Sections/NetworkSection.tsx:104-130 | the written and corrected speed blocks are equal exactly when the written one has no stray "0" |
| Network.ConnectionTypeText | src/components/Pages/SystemOverview/Sections/NetworkSection.tsx:98 | the connection type, or "Connection type unavailable" when it is absent or empty |
| Network.ShowsPlaceholder | src/components/Pages/SystemOverview/Sections/NetworkSection.tsx:176-183 | the speed-test placeholder is drawn exactly when the download speed is absent or 0 |
| Network.TextRow | src/components/Pages/SystemOverview/Sections/NetworkSection.tsx:134-140 | a text row is drawn exactly for a non-empty string |
| Network.DetailRows | src/components/Pages/SystemOverview/Sections/NetworkSection.tsx:133-173 | as many detail rows as there are non-empty text fields, and never a stray "0" |
| Network.NetworkSectionView | src/components/Pages/SystemOverview/Sections/NetworkSection.tsx:79-192 | an error text for an `Err`; otherwise the icon and colour of one tier, the placeholder exactly for a falsy speed, which then has the Basic icon, the connection-type text of the tier, the detail rows of the reading, and the corrected speed block with no stray "0" |

## Findings

| source | as written | input that shows it | evidently intended | confidence | as-written member | corrected member |
|---|---|---|---|---|---|---|
| src-tauri/src/modules/docker.rs:289-295 | every `"0"` part at index 3 or later is skipped, including one in the middle | current "1.2.3.4", latest "1.2.3.0.5": reported as an update, because the comparison sees 1.2.3.5 | only trailing `.0` parts are dropped, as the comment says, so the comparison is the padded order on all components | not executed; high | VersionExamples.MiddleZeroShiftsComponents | VersionsIntended.CompareVersionsIntended |
| src/components/Pages/SystemOverview/Sections/NetworkSection.tsx:105-129 | `{n && <Row/>}` on a number: React prints a zero number, so the guard draws the text "0" | `download_speed_mbps` = 0 (also upload or latency = 0) | nothing is drawn for a zero figure | not executed; medium | Network.ZeroDownloadShowsZero | Network.SpeedRows |
| src/components/Pages/SystemOverview/Sections/PerformanceSection.tsx:82 | `{overall_score && (...)}`: a zero score is printed as "0" under the heading | `overall_score` = 0 | no bar and no text for a zero score | not executed; medium | Performance.ZeroScoreShowsZero | Performance.OverallBar |

`Network.NetworkSectionView` uses the corrected speed block. The corrected comparator is not called anywhere else in the model, because the HTTP update probes that call `compare_versions` are not modelled.

## Left out

- **HTTP update probes** (`check_docker_engine_update_available` and the desktop variants, docker.rs:131-276). They are network I/O. Their answers enter as the `Option<bool>` parameters of `CheckForUpdates` and `BackgroundUpdateStatus`.
- **Runtime plumbing.** Left out:
  - the global `OnceLock`/`Mutex`, `tokio::select!`, the interval timers and the 2-second start-up sleep;
  - the timeouts themselves (only their outcomes are inputs);
  - `spawn`, the broadcast channel, `notify_status_update` and `subscribe_to_docker_events`.

  They are concurrency and I/O. The monitor is modelled as one event at a time. The spawned update probe's write is its own event (`UpdateProbesDone`), which may come at any point, even after a later failure. `check_for_updates` takes its three locks separately; the model reads the versions and writes the flags in one step.
- **`get_docker_status`.** It returns the record unchanged, and the front end's status reply is that record.
- **`initialize_docker_monitoring`.** It resets the configuration to its default; `Inv` keeps the default configuration throughout. Its connection attempt, when it fails, writes nothing. The `InitialConnect` event models exactly that.
- **Processes.** The `reg` and `wmic` invocations, and `from_utf8_lossy`, are not modelled. Each command is its stdout, or `None` when it failed.
- **Hardware libraries.** The `sysinfo`, NVML and `Disks` calls are not modelled; their readings are inputs. The `f64` gigabyte arithmetic of `get_storage_info` is floating point; devices enter already converted. The `println!` debug output is also left out.
- **Memory units.** The memory figures are divided by 1024 and labelled megabytes. Whether that is right depends on the unit `sysinfo` reports, and that library is not part of this model.
- **JavaScript formatting.** `toFixed`, template strings around numbers, bar widths, markup and styling are not modelled. A formatted number is kept as the number.
- **JavaScript values.** NaN and `-0` are not modelled, nor `typeof` for functions and symbols. Keys inherited through the prototype chain are also out: `in` looks only at own keys, plus `length` and the indices of an array.
- **React timers.** The `useEffect` interval and its cleanup are left out, and so are overlapping refreshes. A refresh is the status fetch followed by the version fetch.
- **Severity helper.** `displayValueWithSeverity` is called by the GPU section but defined in no file of the repository. Rows carry the raw value handed to it.
- **Undeclared fields.** The GPU section reads `device_type`, `driver_info` and `backend`. Neither the front-end `GpuInfo` type nor the backend struct declares them, so the model treats them as optional strings. No backend command produces `NetworkInfo` or `PerformanceInfo`; their shapes come from the front end's own declarations.
- **Strings.** JavaScript strings are UTF-16, but the model's strings are sequences of code points, so the string order agrees for the Basic Multilingual Plane only. `from_utf8_lossy` replacement characters are not modelled.
- DockerBackend.TryConnect: the desktop version is detected after the version call succeeds, as in the code, but the order of the container listing and the detection does not matter to the record and is not kept.
- Network.NetworkSectionView: draws the corrected speed block (`Network.SpeedRows`), not the written one (`Network.SpeedNodes`); the two differ only by the stray "0" of a zero figure (`Network.SpeedRowsDropOnlyZeros`).
- Network.DetailRows: states how many rows there are and that none is a stray "0", not their captions and order, to keep the proof small.
- DockerWidget.RefreshedTooltipHasNoVersionLine: states how the tooltip looks after one refresh against the backend's record. It does not cover the period while a fetch is pending.
