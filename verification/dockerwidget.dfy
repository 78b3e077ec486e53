/** The status-bar Docker item (src/components/UI/StatusBar/Items/DockerStatus.tsx):
  * its four pieces of React state, the fetch callbacks that rewrite them and
  * the tooltip computed from them. A backend call is represented by its
  * answer: `Success` with the value or `Failure` with the rejection text. */
module DockerWidget {
  import opened Wrappers
  import opened Strings
  import DockerBackend

  /** The engine details as the front end declares them. */
  datatype FrontVersion = FrontVersion(version: string, apiVersion: string, os: string, arch: string)

  /** The status as the front end declares it: it expects a `version` field. */
  datatype FrontStatus = FrontStatus(isRunning: bool, version: Option<FrontVersion>, error: Option<string>)

  datatype Widget = Widget(
    isLoading: bool,
    error: Option<string>,
    dockerStatus: Option<FrontStatus>,
    dockerVersion: Option<FrontVersion>)

  const CheckingPhrase: string := "Checking Docker status..."
  const NotRunningPhrase: string := "Docker is not running"
  const RunningPhrase: string := "Docker is running"
  const VersionLabel: string := "Version: "
  const UnknownUpdatePhrase: string := "Update status unknown"
  const UpToDatePhrase: string := "Docker is up to date"
  const UpdateAvailablePhrase: string := "Docker update available"
  /** The version the update check compares against, as a string. */
  const ReferenceVersion: string := "20.0.0"

  /** The state on mount: loading, nothing known. */
  function InitialWidget(): (w: Widget)
    ensures w.isLoading && w.error.None? && w.dockerStatus.None? && w.dockerVersion.None?
  {
    Widget(true, None, None, None)
  }

  /** JavaScript truthiness of an optional string: present and non-empty. */
  predicate TruthyText(s: Option<string>)
  {
    s.Some? && |s.value| > 0
  }

  /** The start of `fetchDockerStatus`: loading, error cleared. */
  function BeginStatusFetch(w: Widget): (r: Widget)
    ensures r.isLoading && r.error.None?
    ensures r.dockerStatus == w.dockerStatus && r.dockerVersion == w.dockerVersion
  {
    w.(isLoading := true, error := None)
  }

  /** The end of `fetchDockerStatus`: the answer is stored, a rejection also
    * clears the status, and loading stops either way. */
  function StatusFetched(w: Widget, reply: Result<FrontStatus, string>): (r: Widget)
    ensures !r.isLoading && r.dockerVersion == w.dockerVersion
    ensures reply.Success? ==> r.dockerStatus == Some(reply.value) && r.error == w.error
    ensures reply.Failure? ==> r.dockerStatus.None? && r.error == Some(reply.error)
  {
    match reply
    case Success(status) => w.(dockerStatus := Some(status), isLoading := false)
    case Failure(e) => w.(error := Some(e), dockerStatus := None, isLoading := false)
  }

  function FetchStatus(w: Widget, reply: Result<FrontStatus, string>): (r: Widget)
    ensures !r.isLoading && r.dockerVersion == w.dockerVersion
    ensures reply.Success? <==> r.dockerStatus.Some?
    ensures reply.Success? ==> r.dockerStatus == Some(reply.value) && r.error.None?
    ensures reply.Failure? ==> r.error == Some(reply.error)
  {
    StatusFetched(BeginStatusFetch(w), reply)
  }

  /** `fetchDockerVersion`: a rejection forgets the previous version. */
  function FetchVersion(w: Widget, reply: Result<FrontVersion, string>): (r: Widget)
    ensures r.dockerVersion == (if reply.Success? then Some(reply.value) else None)
    ensures r.(dockerVersion := w.dockerVersion) == w
  {
    match reply
    case Success(v) => w.(dockerVersion := Some(v))
    case Failure(_) => w.(dockerVersion := None)
  }

  /** `refreshDockerStatus`: the status fetch completes before the version
    * fetch starts. */
  function Refresh(w: Widget, statusReply: Result<FrontStatus, string>,
                   versionReply: Result<FrontVersion, string>): (r: Widget)
    ensures !r.isLoading
    ensures r.dockerStatus == FetchStatus(w, statusReply).dockerStatus
    ensures r.error == FetchStatus(w, statusReply).error
    ensures r.dockerVersion == (if versionReply.Success? then Some(versionReply.value) else None)
  {
    FetchVersion(FetchStatus(w, statusReply), versionReply)
  }

  /** `getUpdateStatus`: a string comparison against "20.0.0". */
  function UpdateStatus(w: Widget): (m: string)
    ensures m in {UnknownUpdatePhrase, UpToDatePhrase, UpdateAvailablePhrase}
    ensures m == UnknownUpdatePhrase <==> w.dockerVersion.None?
    ensures m == UpToDatePhrase <==>
              w.dockerVersion.Some? && |w.dockerVersion.value.version| > 0
              && !CodeUnitLess(w.dockerVersion.value.version, ReferenceVersion)
  {
    match w.dockerVersion
    case None => UnknownUpdatePhrase
    case Some(v) =>
      if |v.version| > 0 && !CodeUnitLess(v.version, ReferenceVersion) then UpToDatePhrase
      else UpdateAvailablePhrase
  }

  /** "Up to date" is closed upwards in the string order: a version that is
    * not below an up-to-date one is up to date too. */
  lemma UpToDateIsUpwardClosed(w1: Widget, w2: Widget)
    requires UpdateStatus(w1) == UpToDatePhrase
    requires w2.dockerVersion.Some? && !CodeUnitLess(w2.dockerVersion.value.version, w1.dockerVersion.value.version)
    ensures UpdateStatus(w2) == UpToDatePhrase
  {
    var v1, v2 := w1.dockerVersion.value.version, w2.dockerVersion.value.version;
    if v1 != v2 {
      CodeUnitLessTotal(v1, v2);
      if CodeUnitLess(v2, ReferenceVersion) {
        CodeUnitLessTransitive(v1, v2, ReferenceVersion);
      }
    }
  }

  /** The tooltip reports Docker running: not loading, no error, and a
    * running status at hand. */
  predicate ShowsRunning(w: Widget)
  {
    !w.isLoading && !TruthyText(w.error) && w.dockerStatus.Some? && w.dockerStatus.value.isRunning
  }

  /** `getTooltipText`. */
  function TooltipText(w: Widget): (t: string)
    ensures w.isLoading ==> t == CheckingPhrase
    ensures !w.isLoading && !ShowsRunning(w) ==> t == NotRunningPhrase
    ensures ShowsRunning(w) ==> RunningPhrase + "\n" <= t
  {
    if w.isLoading then CheckingPhrase
    else if TruthyText(w.error) then NotRunningPhrase
    else if w.dockerStatus.Some? && !w.dockerStatus.value.isRunning then NotRunningPhrase
    else if w.dockerStatus.None? then NotRunningPhrase
    else
      var versionLine := match w.dockerStatus.value.version
        case Some(v) => "\n" + VersionLabel + v.version
        case None => "";
      RunningPhrase + versionLine + "\n" + UpdateStatus(w)
  }

  /** The lines a running tooltip is made of. */
  function RunningLines(w: Widget): seq<string>
    requires w.dockerStatus.Some?
  {
    [RunningPhrase]
    + (match w.dockerStatus.value.version
       case Some(v) => [VersionLabel + v.version]
       case None => [])
    + [UpdateStatus(w)]
  }

  lemma NoLineFeedInPhrases()
    ensures '\n' !in RunningPhrase && '\n' !in VersionLabel
    ensures '\n' !in UnknownUpdatePhrase && '\n' !in UpToDatePhrase && '\n' !in UpdateAvailablePhrase
  {
  }

  /** A character in neither half is not in the concatenation. */
  lemma NotInConcat(c: char, x: string, y: string)
    requires c !in x && c !in y
    ensures c !in x + y
  {
    forall i | 0 <= i < |x + y|
      ensures (x + y)[i] != c
    {
      if i < |x| {
        assert (x + y)[i] == x[i];
      } else {
        assert (x + y)[i] == y[i - |x|];
      }
    }
  }

  /** Lines without line feeds, joined by line feeds, split back apart. */
  lemma SplitLines(lines: seq<string>)
    requires |lines| >= 1 && forall k :: 0 <= k < |lines| ==> '\n' !in lines[k]
    ensures Split(Join(lines, "\n"), "\n") == lines
  {
    forall k | 0 <= k < |lines|
      ensures !Contains(lines[k], "\n")
    {
      ContainsChar(lines[k], '\n');
    }
    SingleCharBorderFree('\n');
    SplitJoin(lines, "\n");
  }

  lemma JoinTwo(a: string, b: string)
    ensures Join([a, b], "\n") == a + "\n" + b
  {
    assert [a, b][1..] == [b];
  }

  lemma JoinThree(a: string, b: string, c: string)
    ensures Join([a, b, c], "\n") == a + "\n" + b + "\n" + c
  {
    assert [a, b, c][1..] == [b, c];
    JoinTwo(b, c);
  }

  /** A running tooltip is the line "Docker is running", then a version line
    * exactly when the status carries a version, then the update status. */
  lemma RunningTooltipLines(w: Widget)
    requires ShowsRunning(w)
    requires w.dockerStatus.value.version.Some? ==> '\n' !in w.dockerStatus.value.version.value.version
    ensures Split(TooltipText(w), "\n") == RunningLines(w)
    ensures |Split(TooltipText(w), "\n")| == (if w.dockerStatus.value.version.Some? then 3 else 2)
  {
    if w.dockerStatus.value.version.Some? {
      TooltipWithVersion(w);
    } else {
      TooltipWithoutVersion(w);
    }
  }

  lemma TooltipWithVersion(w: Widget)
    requires ShowsRunning(w) && w.dockerStatus.value.version.Some?
    requires '\n' !in w.dockerStatus.value.version.value.version
    ensures Split(TooltipText(w), "\n") == RunningLines(w)
    ensures |RunningLines(w)| == 3
  {
    var u := UpdateStatus(w);
    var vl := VersionLabel + w.dockerStatus.value.version.value.version;
    var lines := [RunningPhrase, vl, u];
    assert RunningLines(w) == lines;
    assert TooltipText(w) == Join(lines, "\n") by {
      var vline := "\n" + vl;
      assert TooltipText(w) == RunningPhrase + vline + "\n" + u;
      assert RunningPhrase + vline == RunningPhrase + "\n" + vl;
      JoinThree(RunningPhrase, vl, u);
    }
    assert forall k :: 0 <= k < |lines| ==> '\n' !in lines[k] by {
      NoLineFeedInPhrases();
      NotInConcat('\n', VersionLabel, w.dockerStatus.value.version.value.version);
    }
    SplitLines(lines);
  }

  lemma TooltipWithoutVersion(w: Widget)
    requires ShowsRunning(w) && w.dockerStatus.value.version.None?
    ensures Split(TooltipText(w), "\n") == RunningLines(w)
    ensures |RunningLines(w)| == 2
  {
    var u := UpdateStatus(w);
    var lines := [RunningPhrase, u];
    assert RunningLines(w) == lines;
    assert TooltipText(w) == Join(lines, "\n") by {
      assert TooltipText(w) == RunningPhrase + "" + "\n" + u;
      JoinTwo(RunningPhrase, u);
    }
    assert forall k :: 0 <= k < |lines| ==> '\n' !in lines[k] by {
      NoLineFeedInPhrases();
    }
    SplitLines(lines);
  }

  /** "9.0.0" counts as up to date and "100.0.0" does not, because the
    * comparison is by characters, not by numbers. */
  lemma UpdateStatusIsLexicographic(w1: Widget, w2: Widget)
    requires w1.dockerVersion.Some? && w1.dockerVersion.value.version == "9.0.0"
    requires w2.dockerVersion.Some? && w2.dockerVersion.value.version == "100.0.0"
    ensures UpdateStatus(w1) == UpToDatePhrase
    ensures UpdateStatus(w2) == UpdateAvailablePhrase
  {
    var a := w1.dockerVersion.value.version;
    var b := w2.dockerVersion.value.version;
    assert a[0] == '9' && ReferenceVersion[0] == '2';
    assert !CodeUnitLess(a, ReferenceVersion);
    assert b[0] == '1';
    assert CodeUnitLess(b, ReferenceVersion);
  }

  /** The status as the backend serialises it: its engine details travel in
    * a field named `engine_version`, so the front end's `version` field is
    * always missing. */
  function FromBackend(s: DockerBackend.DockerStatus): (f: FrontStatus)
    ensures f.isRunning == s.isRunning && f.error == s.error
    ensures f.version.None?
  {
    FrontStatus(s.isRunning, None, s.error)
  }

  function FromBackendVersion(v: DockerBackend.DockerVersion): (f: FrontVersion)
    ensures f.version == v.version
  {
    FrontVersion(v.version, v.apiVersion, v.os, v.arch)
  }

  /** One refresh against the backend's current state. */
  function RefreshFromBackend(w: Widget, st: DockerBackend.DockerState): (r: Widget)
  {
    var reply := DockerBackend.GetDockerVersion(st);
    var version: Result<FrontVersion, string> :=
      if reply.Success? then Success(FromBackendVersion(reply.value)) else Failure(reply.error);
    Refresh(w, Success(FromBackend(st.status)), version)
  }

  /** Whatever the backend holds, the tooltip after a refresh never shows a
    * version line: it is two lines when Docker runs, and the update status
    * follows from the engine details fetched separately. */
  lemma RefreshedTooltipHasNoVersionLine(w: Widget, st: DockerBackend.DockerState)
    ensures var r := RefreshFromBackend(w, st);
            ShowsRunning(r) <==> st.status.isRunning
    ensures var r := RefreshFromBackend(w, st);
            ShowsRunning(r) ==> Split(TooltipText(r), "\n") == [RunningPhrase, UpdateStatus(r)]
    ensures var r := RefreshFromBackend(w, st);
            UpdateStatus(r) == UnknownUpdatePhrase <==> st.status.engineVersion.None?
  {
    var r := RefreshFromBackend(w, st);
    assert r.dockerStatus == Some(FromBackend(st.status));
    if ShowsRunning(r) {
      RunningTooltipLines(r);
      assert RunningLines(r) == [RunningPhrase] + [] + [UpdateStatus(r)];
    }
  }
}
