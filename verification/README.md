# CMAM installer and `install` command — a Dafny model

CMAM (Connor Merk App Manager) is a small Windows package manager. This project
models the decision logic inside its two programs:

- the bootstrap installer `src/install.py`, which downloads `cmam.exe` from a
  GitHub release into `C:\.cmam\scripts`, checks the digest, commits it by
  remove-then-rename, and adds the scripts folder to the user PATH;
- the manager's `install` command in `src/cmam.py`, which looks an application
  up in the `packages.json` manifest, downloads the first `.exe` asset of its
  release, checks the digest, writes `scripts\{app}.exe`, and adds the folder
  to PATH.

Everything that touches the outside world is an input value. HTTP responses
are `Releases.Http` values, and the streamed download is `Installer.Fetch`.
File writes are `Manager.WriteOutcome` values, and registry access is
`PathList.RegistryAccess`. The file system is a map from path to bytes
(`Machine.Host`). `os.path.abspath`, `os.path.normpath`, `str.lower` and
SHA-256 are not re-implemented. They are passed in as functions: a
`PathEntries.PathOps` value and a `sha` argument.

Modules, leaves first:

- `Wrappers`: `Option`.
- `Text`: Python's `split`, `strip`, `endswith` and `replace(pat, "")`, plus the truthiness of an optional string.
- `Machine`: bytes, files, the host state, and `os.remove` / `os.rename` with Windows' rename rule.
- `PathEntries`: reading a PATH value into entries.
- `PathList`: the merge decision and the registry write it drives. It holds `AddFolder`, the one definition of the installer's `add_to_path` and the manager's `add_folder_to_path`, which apply the same rule.
- `Releases`: the releases API URL and the first-`.exe` asset selection.
- `Checksum`: the installer's stripping gate and the manager's exact tagged gate.
- `Installer`: `download_cmam` and `main` of `src/install.py`.
- `Manager`: `install` of `src/cmam.py`.

Behaviour of the code worth noting:

- Nothing records which version of an application is installed. `packages.txt` is only ever created empty.
- The installer deletes every `sha256:` from the digest and compares the rest. The manager compares `sha256:<hex>` exactly. So the two programs accept different digests.
- The installer commits in two separate steps: it removes the old executable, then renames the temp file.
- The manager writes the final path directly, with no temp file.
- A version that is present but empty selects `latest`, because Python's `if version:` treats `""` as false.
- A digest that is present but empty is treated as absent, for the same reason.

## Model

| member | source | states |
|---|---|---|
| `Text.StripTrims` | src/install.py:83 | `strip()` removes a run of whitespace from each end and nothing else, and leaves no whitespace at either end |
| `Text.SplitJoin` | src/install.py:83 | the pieces of `split(';')`, joined back with `;`, give the original PATH string |
| `Text.SplitPiecesLackSeparator` | src/install.py:83 | no piece produced by `split(';')` contains `;` |
| `Text.SplitAround` | src/install.py:91 | splitting `a + ";" + b` gives the pieces of `a` followed by the pieces of `b` |
| `Text.RemoveAll` | src/install.py:184 | `replace(pat, "")` never lengthens the string and returns it unchanged when `pat` does not occur in it |
| `Text.RemoveAllFirst` | src/install.py:184 | `replace(pat, "")` deletes the first occurrence, keeps the text before it, and continues after it; with `RemoveAll`'s clause for strings without `pat`, this fixes the left-to-right, non-overlapping result on every input |
| `PathEntries.KeptMembers` | src/install.py:83 | a string is a PATH entry exactly when it is the non-empty trimmed form of some `;`-separated piece |
| `PathEntries.Listed` | src/install.py:84-86 | the membership test holds exactly when some entry, normalised and lower-cased, equals the lower-cased folder |
| `PathEntries.EntriesAppend` | src/install.py:91 | appending `;` and a folder to a PATH value appends the folder's entries to the old entries |
| `PathList.Merge` | src/install.py:83-91 | "already present" exactly when some normalised, lower-cased entry equals the lower-cased folder; otherwise the new value keeps the old raw string (trailing `;` included) as a prefix, adds `;` and the folder, or is the folder alone when the old value is empty; its entries are the old entries followed by the folder's |
| `PathList.MergeIdempotent` | src/install.py:64-91 | for a folder with no `;`, no surrounding whitespace, and fixed by normalising and lower-casing, a second merge of the result reports "already present" |
| `PathList.Register` | src/install.py:69-111 | returns true exactly when the registry opens and either the write succeeds or the folder is already listed; the value changes only on a granted write of a new value, and then to the merged value |
| `PathList.RegisterTwice` | src/install.py:77-92 | after one successful registration, a second one returns true and writes nothing |
| `PathList.AddFolder` | src/install.py:64-111 | `add_to_path`, and equally `add_folder_to_path` at src/cmam.py:41-78, which applies the same rule: true and no write when the absolute folder is already listed; otherwise `old;folder` (or `folder` when PATH is empty or missing) is written when the registry allows; any registry exception gives false and no change |
| `Releases.EndpointFor` | src/install.py:118-121 | the tagged endpoint is chosen exactly when a non-empty version is given, and it carries that version |
| `Releases.ApiUrl` | src/cmam.py:153-157 | the URL lies under `https://api.github.com/repos/{repo}/releases/`, and parsing it recovers the endpoint (`latest` or `tags/v{version}`) |
| `Installer.ReleaseApiUrl` | src/install.py:118-121 | the installer's URL, including the literal `latest` constant, parses back to `tags/v{version}` for a non-empty version and to `latest` otherwise |
| `Releases.FirstExeFrom` | src/cmam.py:167-172 | the result is the first position whose lower-cased name ends in `.exe`, or none when no position does |
| `Releases.SelectArtifact` | src/cmam.py:167-172 | none exactly when no asset is `.exe`; otherwise the URL, digest and file name all come from the first `.exe` asset |
| `Releases.ChosenArtifact` | src/install.py:139-151 | none exactly when the release was not fetched, when no asset is `.exe`, or when the first `.exe` asset's URL is absent or empty (`if not exe_url`; a later `.exe` asset is never tried); otherwise the artifact of that first `.exe` asset |
| `Releases.SelectFirst` | src/install.py:142-147 | the first `.exe` position is unique, so it alone decides the selected artifact |
| `Installer.FindExeAsset` | src/install.py:139-147 | the asset loop as written, including its redundant `cmam.exe` test, yields the URL and digest of the first `.exe` asset, or nothing |
| `Checksum.StrippedDigestGate` | src/install.py:183-192 | an absent or empty digest means unverified and accepted; otherwise accepted exactly when the digest with every `sha256:` removed equals the hex |
| `Checksum.TaggedDigestGate` | src/cmam.py:187-194 | an absent or empty digest means unverified and accepted; otherwise accepted exactly when the digest equals `sha256:` followed by the hex |
| `Checksum.HexIsNotStripped` | src/install.py:184 | a lower-case hex string contains no `sha256:`, so stripping leaves it unchanged |
| `Checksum.GatesAgreeOnTaggedForm` | src/cmam.py:187-194 | on digests of the form `sha256:<hex>` both gates accept exactly when the hex parts are equal |
| `Checksum.TaggedGateIsStricter` | src/cmam.py:191 | any digest the manager accepts, the installer accepts too |
| `Checksum.BareHexDivides` | src/install.py:184-186 | a bare hex digest passes the installer's gate and fails the manager's |
| `Checksum.StrippedGateDropsEveryTag` | src/install.py:184 | `sha256:sha256:<hex>` verifies for the installer, because every tag is removed, and fails for the manager |
| `Machine.Remove` | src/install.py:188 | after `os.remove` the path is absent and every other path is unchanged |
| `Machine.Rename` | src/install.py:197 | the rename succeeds exactly when the source exists and the target does not; the target then holds the source's bytes, the source is gone, and other paths are unchanged |
| `Installer.Commit` | src/install.py:194-197 | remove-then-rename always succeeds: the executable then holds the temp file's bytes, the temp file is gone, and other paths are unchanged |
| `Installer.CommitIsNotAtomic` | src/install.py:195-197 | between the two commit steps the executable is absent and the temp file present; a rename without the removal fails whenever the executable exists |
| `Installer.DownloadCmam` | src/install.py:113-207 | requests the release URL, then the chosen asset's URL only when one exists; true exactly when the download completes and the stripping gate accepts; on success the executable holds the body and the temp file is gone; on failure the executable is untouched; a rejected download leaves no temp file, and an interrupted stream leaves exactly the partial bytes in it |
| `Installer.CreatedDirs` | src/install.py:56-62 | without an exception all three folders exist, and in any case no other folder is created |
| `Installer.Main` | src/install.py:257-318 | non-Windows exits 1 and an existing executable without `--force` exits 0, both with no step run; the steps run in order, each only while all earlier ones succeeded; PATH runs unless skipped, and `path_was_updated` is exactly its result; exit 0 exactly when verification is reached, and verification passes exactly when the executable exists; after a successful install the executable holds the complete downloaded body and the temp file is gone; once past the early exits, the folders are the old ones plus those `ensure_directories` created; the PATH value becomes `add_to_path`'s result when that step runs and is unchanged otherwise |
| `Installer.PathFailureKeepsSuccess` | src/install.py:298-305 | whatever the registry does, the exit code, the files and the steps run are the same |
| `Installer.OnlyVerifiedBytesInstalled` | src/install.py:183-200 | if the executable changed, the run exits 0 and the executable holds exactly the downloaded body, whose digest passed the gate |
| `Manager.ExeTarget` | src/cmam.py:202 | the target is exactly the scripts folder, a backslash, the app name and `.exe` (prefix, suffix and total length fixed), and never `packages.txt` |
| `Manager.ManifestEntry` | src/cmam.py:117-131 | an entry exactly when the manifest was fetched, its payload is a file with content that decodes, and the app is listed with a non-null value; the entry is that value |
| `Manager.LookupApp` | src/cmam.py:126-131 | "not found" exactly when the app is missing or its entry is null; otherwise the entry itself |
| `Manager.Prepared` | src/cmam.py:104-109 | the three folders exist, `packages.txt` keeps its content or is created empty, and nothing else changes |
| `Manager.Finalize` | src/cmam.py:187-224 | digest mismatch exits 1 before any write; the target changes only after the gate passes; completion exactly when the gate passes and the write succeeds, and exactly when the PATH phase is entered; the target then holds the downloaded bytes and the PATH value is `add_folder_to_path`'s result |
| `Manager.FromRelease` | src/cmam.py:150-224 | requests the release URL built from `link`, then the asset URL only when a `.exe` asset with a URL exists; a release without one exits 1 before downloading; completion exactly when the PATH phase is entered, and then the target holds the downloaded bytes and the PATH value is `add_folder_to_path`'s result |
| `Manager.Install` | src/cmam.py:84-224 | phases are entered in source order; manifest failures, a non-file payload, bad JSON, or a missing or null app exit 1 after only the manifest request; only the target executable can change, and only after the gate passes; completion exactly when the download, the gate and the write all succeed, and exactly when the PATH phase is entered; the PATH value is then `add_folder_to_path`'s result; the folders are always the three created at the start |
| `Manager.FinalizeIgnoresRegistry` | src/cmam.py:210-224 | from the digest check on, the registry outcome changes neither the finish, nor the files, nor the phases |
| `Manager.FromReleaseIgnoresRegistry` | src/cmam.py:150-224 | from the release request on, the registry outcome changes neither the finish, nor the files, nor the phases |
| `Manager.PathResultIgnored` | src/cmam.py:213-224 | the PATH step's result changes neither the outcome, nor the files, nor the phases |
| `Manager.PackagesFileNeverRecordsVersion` | src/cmam.py:107-109 | after `install`, `packages.txt` holds its old content, or is empty when it was missing, so no version is ever recorded |
| `Manager.ChosenIgnoresName` | src/cmam.py:167-172 | renaming the first `.exe` asset to another `.exe` name keeps the same asset chosen; only the recorded file name changes |
| `Manager.AssetNameIrrelevant` | src/cmam.py:167-204 | renaming the chosen `.exe` asset to another `.exe` name leaves the whole run unchanged |

## Left out

- The `SendMessageTimeoutW` broadcast and the registry value type are left out. They are OS calls with no effect on the decision.
- Console output is left out. This covers Rich panels, status spinners, progress bars, the MB/KB size display and the `tag_name` display.
- The typer CLI wiring, the `hello` placeholder and `is_admin` are left out. They are presentation or unused.
- The HTTP transport, streaming and chunking are left out. Responses are input values, and a download is complete, interrupted after some bytes, or refused.
- JSON and base64 decoding are left out. The manifest is given already decoded. A decoding failure is an input alternative: `BadJson` exits 1, and `BadEncoding` is an uncaught exception.
- Manifest JSON of an unexpected shape is left out. This covers a top-level list, or an entry that is not an object. These raise uncaught `AttributeError`/`TypeError`, and the model admits only objects and `null`.
- `response.json()` failures on the release payload are left out. The payload is given decoded.
- SHA-256, `abspath`, `normpath` and Unicode `lower` are left out. They are parameters, not re-implemented.
- Failures of `os.makedirs` and of creating `packages.txt` in the manager are left out. They are uncaught exceptions outside the decision logic.
- In the installer, a failing `os.remove` of the temp file after a mismatch is left out. So is a failing remove or rename during the commit. The model treats these as the successful steps they almost always are.
- Version ordering, update, rollback, backup and any installed-version registry are left out. None of them exists in this code.
- Concurrency is left out. Both programs run single-threaded, one step at a time.
