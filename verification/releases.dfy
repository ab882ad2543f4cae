/**
 GitHub release resolution as both programs do it: the releases API endpoint
 chosen from an optional version, and the artifact chosen from a release's
 asset list. HTTP traffic is not modelled; a response is a value of `Http`.
 */
module Releases {
  import opened Wrappers
  import opened Text

  /** The outcome of one `requests.get` followed by `raise_for_status()`. */
  datatype Http<T> =
    | Ok(body: T)             // 2xx, body already decoded
    | NotFound                // 404
    | HttpError(status: int)  // any other error status
    | NetworkError            // the request itself raised

  const ApiRoot := "https://api.github.com/repos/"

  /** Which release of a repository the API is asked for. */
  datatype Endpoint = Latest | Tag(version: string)

  /** The endpoint for an optional version: `latest` unless the version is present and non-empty. */
  function EndpointFor(version: Option<string>): (e: Endpoint)
    ensures e.Tag? <==> Present(version)
    ensures e.Tag? ==> e.version == version.value
  {
    if Present(version) then Tag(version.value) else Latest
  }

  function ReleasesPrefix(repo: string): string {
    ApiRoot + repo + "/releases/"
  }

  /** `https://api.github.com/repos/{repo}/releases/latest` or `.../releases/tags/v{version}`. */
  function ApiUrl(repo: string, e: Endpoint): (url: string)
    ensures StartsWith(url, ReleasesPrefix(repo))
    ensures ParseApiUrl(repo, url) == Some(e)
  {
    var p := ReleasesPrefix(repo);
    var tail := match e
      case Latest => "latest"
      case Tag(v) => "tags/v" + v;
    var url := p + tail;
    assert url[..|p|] == p && url[|p|..] == tail;
    assert e.Tag? ==> tail[..6] == "tags/v" && tail[6..] == e.version && tail[0] == 't';
    assert StartsWith(url, p);
    url
  }

  /** Reads the endpoint back from a releases API URL of `repo`; `None` for any other URL. */
  function ParseApiUrl(repo: string, url: string): Option<Endpoint> {
    var p := ReleasesPrefix(repo);
    if !StartsWith(url, p) then None
    else
      var rest := url[|p|..];
      if rest == "latest" then Some(Latest)
      else if StartsWith(rest, "tags/v") then Some(Tag(rest[6..]))
      else None
  }

  /** One entry of a release's `assets` list; a missing `name` reads as `""`. */
  datatype Asset = Asset(name: string, downloadUrl: Option<string>, digest: Option<string>)

  /** A release payload; a missing `assets` list reads as empty. */
  datatype Release = Release(assets: seq<Asset>)

  /** The asset's lower-cased name ends in `.exe`. */
  predicate IsExe(a: Asset, lower: string -> string) {
    EndsWith(lower(a.name), ".exe")
  }

  /** The index of the first `.exe` asset at or after `from`. */
  function FirstExeFrom(assets: seq<Asset>, lower: string -> string, from: nat): (r: Option<nat>)
    requires from <= |assets|
    ensures r.Some? ==> from <= r.value < |assets| && IsExe(assets[r.value], lower)
    ensures r.Some? ==> forall j :: from <= j < r.value ==> !IsExe(assets[j], lower)
    ensures r.None? ==> forall j :: from <= j < |assets| ==> !IsExe(assets[j], lower)
    decreases |assets| - from
  {
    if from == |assets| then None
    else if IsExe(assets[from], lower) then Some(from)
    else FirstExeFrom(assets, lower, from + 1)
  }

  /** `k` is the position of the first `.exe` asset. */
  predicate IsFirstExe(assets: seq<Asset>, lower: string -> string, k: int) {
    && 0 <= k < |assets|
    && IsExe(assets[k], lower)
    && forall j :: 0 <= j < k ==> !IsExe(assets[j], lower)
  }

  /** URL, digest and name, always taken from one and the same asset. */
  datatype Artifact = Artifact(url: Option<string>, digest: Option<string>, filename: string)

  function ArtifactOf(a: Asset): Artifact {
    Artifact(a.downloadUrl, a.digest, a.name)
  }

  /** The artifact of the first `.exe` asset in list order; `None` when no asset is one. */
  function SelectArtifact(assets: seq<Asset>, lower: string -> string): (r: Option<Artifact>)
    ensures r.None? <==> forall j :: 0 <= j < |assets| ==> !IsExe(assets[j], lower)
    ensures r.Some? ==> exists k :: IsFirstExe(assets, lower, k) && r.value == ArtifactOf(assets[k])
  {
    match FirstExeFrom(assets, lower, 0)
    case None => None
    case Some(k) =>
      assert IsFirstExe(assets, lower, k);
      Some(ArtifactOf(assets[k]))
  }

  /**
   The artifact both programs go on to download: the first `.exe` asset of a
   fetched release, provided its URL is present and non-empty (`if not exe_url`
   stops otherwise; a later `.exe` asset is never tried).
   */
  function ChosenArtifact(release: Http<Release>, lower: string -> string): (r: Option<Artifact>)
    ensures r.None? <==>
      || !release.Ok?
      || (forall j :: 0 <= j < |release.body.assets| ==> !IsExe(release.body.assets[j], lower))
      || (exists k :: IsFirstExe(release.body.assets, lower, k) && !Present(release.body.assets[k].downloadUrl))
    ensures r.Some? ==> release.Ok? && Present(r.value.url)
    ensures r.Some? ==> exists k :: IsFirstExe(release.body.assets, lower, k) && r.value == ArtifactOf(release.body.assets[k])
  {
    if release.Ok? then
      match SelectArtifact(release.body.assets, lower)
      case Some(a) =>
        FirstExeUnique(release.body.assets, lower);
        if Present(a.url) then Some(a) else None
      case None => None
    else None
  }

  /** Two first `.exe` positions are the same position. */
  lemma FirstExeUnique(assets: seq<Asset>, lower: string -> string)
    ensures forall k, k' :: IsFirstExe(assets, lower, k) && IsFirstExe(assets, lower, k') ==> k == k'
  {
  }

  /** The first `.exe` position is unique, so selection is determined by it. */
  lemma SelectFirst(assets: seq<Asset>, lower: string -> string, k: int)
    requires IsFirstExe(assets, lower, k)
    ensures SelectArtifact(assets, lower) == Some(ArtifactOf(assets[k]))
  {
  }
}
