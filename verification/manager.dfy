/**
 The manager's `install` command (src/cmam.py): look the application up in the
 `packages.json` manifest, resolve its GitHub release, download the first
 `.exe` asset, check its digest, write it to `scripts\{app}.exe`, and add the
 scripts folder to the user PATH. Nothing records which version was installed.
 */
module Manager {
  import opened Wrappers
  import opened Text
  import opened Machine
  import opened PathEntries
  import opened PathList
  import opened Releases
  import opened Checksum

  // The folder literals are raw strings in src/cmam.py (lines 104-107, 202), so their doubled backslash is kept.
  const Root := "C:\\\\.cmam"
  const CacheDir := "C:\\\\.cmam\\.cache"
  const ScriptsDir := "C:\\\\.cmam\\scripts"
  const PackagesFile := "C:\\\\.cmam\\packages.txt"
  const ManifestUrl := "https://api.github.com/repos/cmerk2021/cmam/contents/packages.json"

  /** Where the executable of `appName` is written, whatever the asset was called. */
  function ExeTarget(appName: string): (p: string)
    ensures p != PackagesFile
    ensures StartsWith(p, ScriptsDir + "\\") && EndsWith(p, appName + ".exe")
    ensures |p| == |ScriptsDir| + 1 + |appName| + 4
  {
    var p := ScriptsDir + "\\" + appName + ".exe";
    assert p[|p| - 1] == 'e' && PackagesFile[|PackagesFile| - 1] == 't';
    assert p[..|ScriptsDir + "\\"|] == ScriptsDir + "\\";
    assert p[|p| - |appName + ".exe"|..] == appName + ".exe";
    p
  }

  /** A manifest entry; `link` is the `owner/repo` of its releases, `None` when the key is missing. */
  datatype AppEntry = AppEntry(link: Option<string>)

  /** The `content` field after base64 and JSON decoding. */
  datatype Content =
    | Decoded(apps: map<string, Option<AppEntry>>)  // a JSON `null` entry is `None`
    | BadJson                                       // `json.loads` raises
    | BadEncoding                                   // `b64decode` or UTF-8 decoding raises

  /** The GitHub contents payload for `packages.json`: its `type` and `content` fields. */
  datatype Manifest = Manifest(kind: Option<string>, content: Option<Content>)

  /** The payload describes a file and carries content. */
  predicate IsFilePayload(m: Manifest) {
    m.kind == Some("file") && m.content.Some?
  }

  /** `app_data.get(app_name)`, with a missing key and a `null` value both read as `None`. */
  function LookupApp(apps: map<string, Option<AppEntry>>, name: string): (r: Option<AppEntry>)
    ensures r.None? <==> name !in apps || apps[name].None?
    ensures r.Some? ==> apps[name] == r
  {
    if name in apps then apps[name] else None
  }

  /** The manifest entry of `appName`, when the manifest was fetched, is a file, decodes, and lists it. */
  function ManifestEntry(manifest: Http<Manifest>, appName: string): (r: Option<AppEntry>)
    ensures r.Some? <==>
      && manifest.Ok? && IsFilePayload(manifest.body) && manifest.body.content.value.Decoded?
      && appName in manifest.body.content.value.apps && manifest.body.content.value.apps[appName].Some?
    ensures r.Some? ==> r == manifest.body.content.value.apps[appName]
  {
    if manifest.Ok? && IsFilePayload(manifest.body) && manifest.body.content.value.Decoded? then
      LookupApp(manifest.body.content.value.apps, appName)
    else None
  }

  /** How writing the executable ends. */
  datatype WriteOutcome =
    | OpenFails                      // `open(exe_path, 'wb')` raises; the old file is untouched
    | WriteBreaks(partial: seq<byte>)  // the file was truncated and only `partial` was written
    | Written

  /** How the command ends: normally, by `typer.Exit`, or by an exception nobody catches. */
  datatype Finish = Completed | Exited(code: int) | Crashed

  /** The command's phases, in source order. */
  datatype Phase = Prepare | FetchManifest | ResolveRelease | DownloadArtifact | VerifyChecksum | WriteExecutable | UpdatePath

  const Phases := [Prepare, FetchManifest, ResolveRelease, DownloadArtifact, VerifyChecksum, WriteExecutable, UpdatePath]

  /** The outside world `install` meets: I/O outcomes and the runtime's helper functions. */
  datatype Env = Env(
    manifest: Http<Manifest>,
    release: Http<Release>,
    download: Http<seq<byte>>,
    write: WriteOutcome,
    registry: RegistryAccess,
    sha: seq<byte> -> string,
    ops: PathOps)

  /** How it ended, the machine afterwards, the phases entered, and the URLs requested. */
  datatype Run = Run(finish: Finish, host: Host, phases: seq<Phase>, requests: seq<string>)

  /** The folders are created, and `packages.txt` is created empty when it is missing. */
  function Prepared(host: Host): (h: Host)
    ensures h.dirs == host.dirs + {Root, CacheDir, ScriptsDir}
    ensures PackagesFile in h.files
    ensures h.files[PackagesFile] == if PackagesFile in host.files then host.files[PackagesFile] else []
    ensures forall p :: p != PackagesFile ==> SameAt(h.files, host.files, p)
    ensures h.userPath == host.userPath
  {
    var files := if PackagesFile in host.files then host.files else host.files[PackagesFile := []];
    host.(dirs := host.dirs + {Root, CacheDir, ScriptsDir}, files := files)
  }

  /** The tail of `install` from the digest check on, once the bytes are in memory. */
  function Finalize(appName: string, a: Artifact, bytes: seq<byte>, h: Host, env: Env, requests: seq<string>): (r: Run)
    ensures r.requests == requests && r.host.dirs == h.dirs
    ensures r.phases == Phases[..5] || r.phases == Phases[..6] || r.phases == Phases
    ensures r.finish == Completed || r.finish == Exited(1)
    ensures r.finish == Completed <==> TaggedDigestGate(a.digest, env.sha(bytes)).Accepts() && env.write.Written?
    ensures r.finish == Completed ==> ExeTarget(appName) in r.host.files && r.host.files[ExeTarget(appName)] == bytes
    ensures forall p :: p != ExeTarget(appName) ==> SameAt(r.host.files, h.files, p)
    ensures !SameAt(r.host.files, h.files, ExeTarget(appName)) ==>
      TaggedDigestGate(a.digest, env.sha(bytes)).Accepts() && WriteExecutable in r.phases
    ensures r.host.userPath != h.userPath ==> r.finish == Completed
    ensures r.finish == Completed <==> r.phases == Phases
    ensures r.finish == Completed ==> r.host.userPath == AddFolder(ScriptsDir, env.ops, env.registry, h.userPath).userPath
  {
    var before := Phases[..5];
    assert Phases[..6][5] == WriteExecutable && Phases[6] == UpdatePath;
    if !TaggedDigestGate(a.digest, env.sha(bytes)).Accepts() then
      Run(Exited(1), h, before, requests)
    else
      var target := ExeTarget(appName);
      match env.write
      case OpenFails => Run(Exited(1), h, Phases[..6], requests)
      case WriteBreaks(p) => Run(Exited(1), h.(files := h.files[target := p]), Phases[..6], requests)
      case Written =>
        var h1 := h.(files := h.files[target := bytes]);
        var u := AddFolder(ScriptsDir, env.ops, env.registry, h1.userPath);
        Run(Completed, h1.(userPath := u.userPath), Phases, requests)
  }

  /** The download succeeded and the chosen artifact's digest accepts the downloaded bytes. */
  predicate GatePasses(env: Env) {
    && ChosenArtifact(env.release, env.ops.lower).Some?
    && env.download.Ok?
    && TaggedDigestGate(ChosenArtifact(env.release, env.ops.lower).value.digest, env.sha(env.download.body)).Accepts()
  }

  /** `install` from the release request on, once the entry's `link` is known. */
  function FromRelease(appName: string, version: Option<string>, link: string, h: Host, env: Env): (r: Run)
    ensures 3 <= |r.phases| <= |Phases| && r.phases == Phases[..|r.phases|]
    ensures r.finish.Exited? ==> r.finish.code == 1
    ensures 2 <= |r.requests| <= 3 && r.requests[..2] == [ManifestUrl, ApiUrl(link, EndpointFor(version))]
    ensures ChosenArtifact(env.release, env.ops.lower).None? ==> |r.requests| == 2 && r.host == h
    ensures env.release.Ok? && ChosenArtifact(env.release, env.ops.lower).None? ==> r.finish == Exited(1)
    ensures |r.requests| == 3 ==>
      && ChosenArtifact(env.release, env.ops.lower).Some?
      && r.requests[2] == ChosenArtifact(env.release, env.ops.lower).value.url.value
    ensures r.host.dirs == h.dirs
    ensures r.host.userPath != h.userPath ==> r.finish == Completed
    ensures forall p :: p != ExeTarget(appName) ==> SameAt(r.host.files, h.files, p)
    ensures !SameAt(r.host.files, h.files, ExeTarget(appName)) ==> WriteExecutable in r.phases && GatePasses(env)
    ensures r.finish == Completed <==> GatePasses(env) && env.write.Written?
    ensures r.finish == Completed ==> ExeTarget(appName) in r.host.files && r.host.files[ExeTarget(appName)] == env.download.body
    ensures r.finish == Completed <==> r.phases == Phases
    ensures r.finish == Completed ==> r.host.userPath == AddFolder(ScriptsDir, env.ops, env.registry, h.userPath).userPath
  {
    var resolved := [ManifestUrl, ApiUrl(link, EndpointFor(version))];
    if !env.release.Ok? then Run(Crashed, h, Phases[..3], resolved)
    else
      match ChosenArtifact(env.release, env.ops.lower)
      case None => Run(Exited(1), h, Phases[..3], resolved)
      case Some(a) =>
        var all := resolved + [a.url.value];
        assert all[..2] == resolved;
        match env.download
        case Ok(bytes) => Finalize(appName, a, bytes, h, env, all)
        case _ => Run(Crashed, h, Phases[..4], all)
  }

  /** The `install` command for `appName` and an optional version. */
  function Install(appName: string, version: Option<string>, host: Host, env: Env): (r: Run)
    ensures 2 <= |r.phases| <= |Phases| && r.phases == Phases[..|r.phases|]
    ensures r.finish.Exited? ==> r.finish.code == 1
    ensures 1 <= |r.requests| <= 3 && r.requests[0] == ManifestUrl
    ensures ManifestEntry(env.manifest, appName).None? ==> r.requests == [ManifestUrl] && r.host == Prepared(host)
    ensures ManifestEntry(env.manifest, appName).None? && !(env.manifest.Ok? && IsFilePayload(env.manifest.body) && env.manifest.body.content.value.BadEncoding?)
      ==> r.finish == Exited(1)
    ensures |r.requests| >= 2 ==>
      && ManifestEntry(env.manifest, appName).Some?
      && ManifestEntry(env.manifest, appName).value.link.Some?
      && r.requests[1] == ApiUrl(ManifestEntry(env.manifest, appName).value.link.value, EndpointFor(version))
    ensures |r.requests| >= 2 && ChosenArtifact(env.release, env.ops.lower).None? ==> |r.requests| == 2
    ensures |r.requests| >= 2 && env.release.Ok? && ChosenArtifact(env.release, env.ops.lower).None? ==> r.finish == Exited(1)
    ensures |r.requests| == 3 ==>
      && ChosenArtifact(env.release, env.ops.lower).Some?
      && r.requests[2] == ChosenArtifact(env.release, env.ops.lower).value.url.value
    ensures r.host.userPath != host.userPath ==> r.finish == Completed
    ensures forall p :: p != ExeTarget(appName) ==> SameAt(r.host.files, Prepared(host).files, p)
    ensures !SameAt(r.host.files, Prepared(host).files, ExeTarget(appName)) ==>
      WriteExecutable in r.phases && |r.requests| == 3 && GatePasses(env)
    ensures r.finish == Completed <==> |r.requests| == 3 && GatePasses(env) && env.write.Written?
    ensures r.finish == Completed ==> ExeTarget(appName) in r.host.files && r.host.files[ExeTarget(appName)] == env.download.body
    ensures r.finish == Completed <==> r.phases == Phases
    ensures r.finish == Completed ==> r.host.userPath == AddFolder(ScriptsDir, env.ops, env.registry, host.userPath).userPath
    ensures r.host.dirs == Prepared(host).dirs
  {
    var h := Prepared(host);
    var manifestOnly := [ManifestUrl];
    if !env.manifest.Ok? then Run(Exited(1), h, Phases[..2], manifestOnly)
    else
      var m := env.manifest.body;
      if !IsFilePayload(m) then Run(Exited(1), h, Phases[..2], manifestOnly)
      else
        match m.content.value
        case BadEncoding => Run(Crashed, h, Phases[..2], manifestOnly)
        case BadJson => Run(Exited(1), h, Phases[..2], manifestOnly)
        case Decoded(apps) =>
          match LookupApp(apps, appName)
          case None => Run(Exited(1), h, Phases[..2], manifestOnly)
          case Some(entry) =>
            if entry.link.None? then Run(Crashed, h, Phases[..3], manifestOnly)
            else FromRelease(appName, version, entry.link.value, h, env)
  }

  /** From the digest check on, the registry changes neither the outcome, nor any file, nor the phases. */
  lemma FinalizeIgnoresRegistry(appName: string, a: Artifact, bytes: seq<byte>, h: Host, env: Env,
                                requests: seq<string>, other: RegistryAccess)
    ensures var x := Finalize(appName, a, bytes, h, env, requests);
      var y := Finalize(appName, a, bytes, h, env.(registry := other), requests);
      x.finish == y.finish && x.host.files == y.host.files && x.phases == y.phases
  {
  }

  /** From the release request on, the registry changes neither the outcome, nor any file, nor the phases. */
  lemma FromReleaseIgnoresRegistry(appName: string, version: Option<string>, link: string, h: Host, env: Env,
                                   other: RegistryAccess)
    ensures var x := FromRelease(appName, version, link, h, env);
      var y := FromRelease(appName, version, link, h, env.(registry := other));
      x.finish == y.finish && x.host.files == y.host.files && x.phases == y.phases
  {
    var c := ChosenArtifact(env.release, env.ops.lower);
    if env.release.Ok? && c.Some? && env.download.Ok? {
      var requests := [ManifestUrl, ApiUrl(link, EndpointFor(version))] + [c.value.url.value];
      FinalizeIgnoresRegistry(appName, c.value, env.download.body, h, env, requests, other);
    }
  }

  /** The PATH step's result is ignored: the registry changes neither the outcome nor any file. */
  lemma PathResultIgnored(appName: string, version: Option<string>, host: Host, env: Env, other: RegistryAccess)
    ensures var a := Install(appName, version, host, env);
      var b := Install(appName, version, host, env.(registry := other));
      a.finish == b.finish && a.host.files == b.host.files && a.phases == b.phases
  {
    var e := ManifestEntry(env.manifest, appName);
    if e.Some? && e.value.link.Some? {
      FromReleaseIgnoresRegistry(appName, version, e.value.link.value, Prepared(host), env, other);
    }
  }

  /** `install` never records a version: `packages.txt` is only ever created empty when missing. */
  lemma PackagesFileNeverRecordsVersion(appName: string, version: Option<string>, host: Host, env: Env)
    ensures var r := Install(appName, version, host, env);
      && PackagesFile in r.host.files
      && r.host.files[PackagesFile] == if PackagesFile in host.files then host.files[PackagesFile] else []
  {
    var r := Install(appName, version, host, env);
    assert PackagesFile != ExeTarget(appName);
    assert SameAt(r.host.files, Prepared(host).files, PackagesFile);
  }

  /** Renaming the first `.exe` asset to another `.exe` name changes only the chosen artifact's file name. */
  lemma ChosenIgnoresName(assets: seq<Asset>, lower: string -> string, k: nat, newName: string)
    requires IsFirstExe(assets, lower, k)
    requires EndsWith(lower(newName), ".exe")
    ensures var c := ChosenArtifact(Ok(Release(assets)), lower);
      var c' := ChosenArtifact(Ok(Release(assets[k := assets[k].(name := newName)])), lower);
      && (c.Some? <==> c'.Some?)
      && (c.Some? ==> c'.value == c.value.(filename := newName))
  {
    var assets' := assets[k := assets[k].(name := newName)];
    assert IsFirstExe(assets', lower, k);
    SelectFirst(assets, lower, k);
    SelectFirst(assets', lower, k);
  }

  /** The write target does not depend on the asset's file name: renaming the chosen `.exe` asset changes nothing. */
  lemma AssetNameIrrelevant(appName: string, version: Option<string>, host: Host, env: Env,
                            assets: seq<Asset>, k: nat, newName: string)
    requires env.release == Ok(Release(assets))
    requires IsFirstExe(assets, env.ops.lower, k)
    requires EndsWith(env.ops.lower(newName), ".exe")
    ensures var renamed := env.(release := Ok(Release(assets[k := assets[k].(name := newName)])));
      Install(appName, version, host, renamed) == Install(appName, version, host, env)
  {
    ChosenIgnoresName(assets, env.ops.lower, k, newName);
  }
}
