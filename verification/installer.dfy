/**
 The bootstrap installer (src/install.py): it downloads the manager's own
 executable from the latest or a tagged GitHub release into
 `C:\.cmam\scripts\cmam.exe`, checks its digest, and adds the scripts folder
 to the user PATH, each step gated by the previous one.
 */
module Installer {
  import opened Wrappers
  import opened Text
  import opened Machine
  import opened PathEntries
  import opened PathList
  import opened Releases
  import opened Checksum

  const Root := "C:\\.cmam"
  const CacheDir := Root + "\\.cache"
  const ScriptsDir := Root + "\\scripts"
  const ExePath := ScriptsDir + "\\cmam.exe"
  const TmpPath := ExePath + ".tmp"
  const Repo := "cmerk2021/cmam"
  const LatestReleaseApi := "https://api.github.com/repos/cmerk2021/cmam/releases/latest"

  /** The folders `ensure_directories` creates, in order. */
  const Directories := [Root, CacheDir, ScriptsDir]

  /** The installer's literal `latest` URL is the releases API URL of its own repository. */
  lemma LatestConstantIsApiUrl()
    ensures LatestReleaseApi == ApiUrl(Repo, Latest)
  {
    assert ReleasesPrefix(Repo) == "https://api.github.com/repos/cmerk2021/cmam/releases/";
  }

  /** The releases API URL `download_cmam` requests: `latest`, or `tags/v{version}` for a non-empty version. */
  function ReleaseApiUrl(version: Option<string>): (url: string)
    ensures ParseApiUrl(Repo, url) == Some(if Present(version) then Tag(version.value) else Latest)
  {
    LatestConstantIsApiUrl();
    if Present(version) then ApiUrl(Repo, Tag(version.value)) else LatestReleaseApi
  }

  /**
   The asset loop of `download_cmam`, as written: the first asset whose
   lower-cased name is `cmam.exe` or ends in `.exe` supplies both the URL and
   the digest, and the loop stops there.
   */
  method FindExeAsset(assets: seq<Asset>, lower: string -> string) returns (exeUrl: Option<string>, checksum: Option<string>)
    ensures SelectArtifact(assets, lower).None? ==> exeUrl.None? && checksum.None?
    ensures SelectArtifact(assets, lower).Some? ==>
      exeUrl == SelectArtifact(assets, lower).value.url && checksum == SelectArtifact(assets, lower).value.digest
  {
    exeUrl := None;
    checksum := None;
    var i := 0;
    while i < |assets|
      invariant 0 <= i <= |assets|
      invariant forall j :: 0 <= j < i ==> !IsExe(assets[j], lower)
      invariant exeUrl.None? && checksum.None?
    {
      var name := lower(assets[i].name);
      if name == "cmam.exe" || EndsWith(name, ".exe") {
        exeUrl := assets[i].downloadUrl;
        checksum := assets[i].digest;
        SelectFirst(assets, lower, i);
        return;
      }
      i := i + 1;
    }
  }

  /** How the streamed download of the executable ends. */
  datatype Fetch =
    | Refused                        // the GET or its status check raises before the temp file is opened
    | Interrupted(partial: seq<byte>)  // the stream breaks after `partial` was written to the temp file
    | Complete(body: seq<byte>)        // every chunk arrived and was written

  /** Remove-then-rename: the old executable is deleted, then the temp file takes its name. */
  function Commit(files: Files): (r: Option<Files>)
    requires TmpPath in files
    ensures r.Some?
    ensures ExePath in r.value && r.value[ExePath] == files[TmpPath] && TmpPath !in r.value
    ensures forall p :: p != ExePath && p != TmpPath ==> SameAt(r.value, files, p)
  {
    var cleared := if ExePath in files then Remove(files, ExePath) else files;
    Rename(cleared, TmpPath, ExePath)
  }

  /** The commit is two steps: between them the executable is gone and only the temp file exists. */
  lemma CommitIsNotAtomic(files: Files)
    requires TmpPath in files
    ensures var cleared := if ExePath in files then Remove(files, ExePath) else files;
      && ExePath !in cleared && TmpPath in cleared
      && Rename(cleared, TmpPath, ExePath) == Commit(files)
      && Rename(files, TmpPath, ExePath).None? == (ExePath in files)
  {
  }

  /** What `download_cmam` returns, the files it leaves, and the URLs it requested. */
  datatype DownloadReport = DownloadReport(ok: bool, files: Files, requests: seq<string>)

  /**
   `download_cmam`: resolve the release, pick the executable asset, stream it
   to the temp file, check the digest, and only then commit.
   */
  function DownloadCmam(version: Option<string>, release: Http<Release>, fetch: Fetch,
                        sha: seq<byte> -> string, lower: string -> string, files: Files): (r: DownloadReport)
    ensures var c := ChosenArtifact(release, lower);
      && r.requests == [ReleaseApiUrl(version)] + (if c.Some? then [c.value.url.value] else [])
      && (r.ok <==> c.Some? && fetch.Complete? && StrippedDigestGate(c.value.digest, sha(fetch.body)).Accepts())
      && (r.ok ==> ExePath in r.files && r.files[ExePath] == fetch.body && TmpPath !in r.files)
      && (!r.ok ==> SameAt(r.files, files, ExePath))
      && (c.None? || fetch.Refused? ==> r.files == files)
      && (c.Some? && fetch.Complete? && !r.ok ==> TmpPath !in r.files)
      && (c.Some? && fetch.Interrupted? ==> r.files == files[TmpPath := fetch.partial])
      && (forall p :: p != ExePath && p != TmpPath ==> SameAt(r.files, files, p))
  {
    var api := ReleaseApiUrl(version);
    match ChosenArtifact(release, lower)
    case None => DownloadReport(false, files, [api])
    case Some(a) =>
      var requests := [api, a.url.value];
      match fetch
      case Refused => DownloadReport(false, files, requests)
      case Interrupted(p) => DownloadReport(false, files[TmpPath := p], requests)
      case Complete(b) =>
        var staged := files[TmpPath := b];
        if !StrippedDigestGate(a.digest, sha(b)).Accepts() then
          DownloadReport(false, Remove(staged, TmpPath), requests)
        else
          DownloadReport(true, Commit(staged).value, requests)
  }

  /** Steps of `main`, in the order they may run. */
  datatype Step = CreateDirectories | Download | ConfigurePath | VerifyInstallation

  /** The outside world `main` meets: I/O outcomes and the runtime's helper functions. */
  datatype Env = Env(
    mkdirFailure: Option<nat>,   // `Some(k)`: creating the k-th folder (or a later print) raises
    release: Http<Release>,
    fetch: Fetch,
    registry: RegistryAccess,
    sha: seq<byte> -> string,
    ops: PathOps)

  /** Exit code, final machine state, steps run, the PATH tip flag, and URLs requested. */
  datatype Run = Run(exitCode: int, host: Host, steps: seq<Step>, pathUpdated: bool, requests: seq<string>)

  /** The folders that exist after `ensure_directories`, given where it raised. */
  function CreatedDirs(failure: Option<nat>): (r: set<string>)
    ensures failure.None? ==> r == {Root, CacheDir, ScriptsDir}
    ensures r <= {Root, CacheDir, ScriptsDir}
  {
    var n := match failure
      case None => 3
      case Some(k) => if k < 3 then k else 3;
    assert Directories[..3] == Directories;
    set d | d in Directories[..n]
  }

  /** The download step `main` runs, over the state the directory step left. */
  function DownloadStep(version: Option<string>, env: Env, host: Host): DownloadReport {
    DownloadCmam(version, env.release, env.fetch, env.sha, env.ops.lower, host.files)
  }

  /**
   `main`: refuse non-Windows platforms, stop early when already installed
   without `--force`, then create the folders, download, add to PATH unless
   skipped, and verify, each only while every earlier step succeeded.
   */
  function Main(onWindows: bool, version: Option<string>, skipPath: bool, force: bool, host: Host, env: Env): (r: Run)
    ensures r.exitCode == 0 || r.exitCode == 1
    ensures !onWindows ==> r == Run(1, host, [], false, [])
    ensures onWindows && ExePath in host.files && !force ==> r == Run(0, host, [], false, [])
    ensures r.steps == [] || r.steps == [CreateDirectories] || r.steps == [CreateDirectories, Download]
      || r.steps == [CreateDirectories, Download, VerifyInstallation]
      || r.steps == [CreateDirectories, Download, ConfigurePath, VerifyInstallation]
    ensures ConfigurePath in r.steps <==> VerifyInstallation in r.steps && !skipPath
    ensures Download in r.steps <==> r.steps != [] && env.mkdirFailure.None?
    ensures VerifyInstallation in r.steps <==> Download in r.steps && DownloadStep(version, env, host).ok
    ensures r.pathUpdated <==> ConfigurePath in r.steps && AddFolder(ScriptsDir, env.ops, env.registry, host.userPath).ok
    ensures r.exitCode == 0 <==> (r.steps == [] && onWindows) || VerifyInstallation in r.steps
    ensures r.host.userPath != host.userPath ==> ConfigurePath in r.steps
    ensures r.steps != [] ==> r.host.dirs == host.dirs + CreatedDirs(env.mkdirFailure)
    ensures r.steps == [] ==> r.host == host
    ensures ConfigurePath in r.steps ==> r.host.userPath == AddFolder(ScriptsDir, env.ops, env.registry, host.userPath).userPath
    ensures ConfigurePath !in r.steps ==> r.host.userPath == host.userPath
    ensures VerifyInstallation in r.steps ==> (r.exitCode == 0 <==> ExePath in r.host.files)
    ensures r.exitCode == 0 && r.steps != [] ==>
      && env.fetch.Complete?
      && ExePath in r.host.files && r.host.files[ExePath] == env.fetch.body
      && TmpPath !in r.host.files
  {
    if !onWindows then Run(1, host, [], false, [])
    else if ExePath in host.files && !force then Run(0, host, [], false, [])
    else
      var h1 := host.(dirs := host.dirs + CreatedDirs(env.mkdirFailure));
      if env.mkdirFailure.Some? then Run(1, h1, [CreateDirectories], false, [])
      else
        var d := DownloadStep(version, env, h1);
        var h2 := h1.(files := d.files);
        if !d.ok then Run(1, h2, [CreateDirectories, Download], false, d.requests)
        else
          var u := AddFolder(ScriptsDir, env.ops, env.registry, h2.userPath);
          var h3 := if skipPath then h2 else h2.(userPath := u.userPath);
          var pathSteps := if skipPath then [] else [ConfigurePath];
          var updated := !skipPath && u.ok;
          var verified := ExePath in h3.files;
          Run(if verified then 0 else 1, h3, [CreateDirectories, Download] + pathSteps + [VerifyInstallation], updated, d.requests)
  }

  /** Whatever the registry does, the PATH step changes neither the exit code nor any file. */
  lemma PathFailureKeepsSuccess(onWindows: bool, version: Option<string>, skipPath: bool, force: bool,
                                host: Host, env: Env, other: RegistryAccess)
    ensures var a := Main(onWindows, version, skipPath, force, host, env);
      var b := Main(onWindows, version, skipPath, force, host, env.(registry := other));
      a.exitCode == b.exitCode && a.host.files == b.host.files && a.steps == b.steps
  {
  }

  /** An executable that differs from the one before the run is the downloaded body, and its digest passed. */
  lemma OnlyVerifiedBytesInstalled(onWindows: bool, version: Option<string>, skipPath: bool, force: bool,
                                   host: Host, env: Env)
    ensures var r := Main(onWindows, version, skipPath, force, host, env);
      !SameAt(r.host.files, host.files, ExePath) ==>
        && r.exitCode == 0
        && env.fetch.Complete?
        && r.host.files[ExePath] == env.fetch.body
        && ChosenArtifact(env.release, env.ops.lower).Some?
        && StrippedDigestGate(ChosenArtifact(env.release, env.ops.lower).value.digest, env.sha(env.fetch.body)).Accepts()
  {
  }
}
