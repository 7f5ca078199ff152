# okteto configuration resolution, modelled in Dafny

This project models `pkg/config/config.go` of the okteto CLI: how it finds the user's
home directory, the okteto folder (`~/.okteto` or `OKTETO_FOLDER`), the per-namespace and
per-deployment folders below it, the kubeconfig file, and the per-action timeout.

Everything is a pure function:

- the environment is a `map<string, string>` (`Environment.Env`); `os.LookupEnv` is key
  membership and `os.Getenv` gives `""` for an unset key;
- the filesystem is `Paths.FileSystem`: the set of existing paths plus the set of missing
  directories whose creation the system refuses; `model.FileExists` is membership, and
  `os.MkdirAll` adds the path and its missing ancestors, or fails;
- the platform is a `windows: bool` parameter (`runtime.GOOS == "windows"`);
- `log.Fatalf` is a `Failure` result carrying a `Config.ConfigError`;
- directory operations return the resolved path together with the filesystem after the
  directories were created (`Config.Resolved`);
- the `sync.Once`-guarded timeout is a `Timeout.TimeoutCache` value threaded from call to
  call; `time.ParseDuration` is a parameter `string -> Option<Duration>`.

Modules: `Wrappers` (Option, Result), `Environment`, `Strings` (Go's `strings.Split` and
`strings.Join` on a one-character separator), `Paths` (`filepath.Join`, existence,
`MkdirAll`), `Config` (the resolution functions), `ConfigProperties` (properties that
relate several calls), `Timeout`.

Two details of the code that the model keeps as they are:

- a set `OKTETO_FOLDER` that exists is returned as it is and is never passed to
  `MkdirAll` (config.go:51-57); only the derived `<home>/.okteto` is created;
- on Windows the drive/path fallback fails as soon as either `HOMEDRIVE` or `HOMEPATH`
  is empty (config.go:128).

## Model

| member | source | states |
|---|---|---|
| Config.HomedirWindows | pkg/config/config.go:116-133 | HOME wins when non-empty, then USERPROFILE; otherwise the call fails exactly when HOMEDRIVE or HOMEPATH is empty; a successful result is never empty |
| ConfigProperties.HomedirWindowsIsFirstCandidate | pkg/config/config.go:116-133 | `homedirWindows` returns the first usable candidate of the ordered list HOME, USERPROFILE, HOMEDRIVE+HOMEPATH (a reference precedence chain), and fails exactly when none is usable |
| ConfigProperties.WindowsHomeExamples | pkg/config/config.go:103-133 | on Windows, HOMEDRIVE="C:" with HOMEPATH="\Users\x" gives `C:\Users\x`; with no variable set the resolution fails |
| Config.GetUserHomeDir | pkg/config/config.go:94-114 | a set OKTETO_HOME is returned verbatim when it exists and is fatal when it does not; otherwise Windows defers to `homedirWindows` and other platforms return HOME unchecked; an empty home can only come from an unset/empty HOME off Windows (or an existing empty OKTETO_HOME) |
| ConfigProperties.UserHomeDirStable | pkg/config/config.go:94-114 | a successful home resolution gives the same answer on any filesystem that only gained paths |
| Paths.MkdirAll | pkg/config/config.go:62-64 | an existing path leaves the filesystem unchanged; the empty path and a denied missing ancestor fail; otherwise the path and all its ancestors exist afterwards, nothing is removed, and only ancestors-or-self of the path are added |
| Paths.MkdirAllIdempotent | pkg/config/config.go:74-76 | creating a directory a second time changes nothing and succeeds |
| Paths.JoinEmpty | pkg/config/config.go:60 | the joined path is empty exactly when every element is empty (empty elements are skipped) |
| Paths.JoinSplitsBack | pkg/config/config.go:84 | joining non-empty, separator-free elements and splitting at the separator gives the elements back |
| Config.CreateDir | pkg/config/config.go:62-64 | the resolved directory is returned with the created filesystem exactly when `MkdirAll` succeeds, and a creation error is fatal and names the directory |
| Config.GetOktetoHome | pkg/config/config.go:50-67 | a set OKTETO_FOLDER that exists is returned with the filesystem untouched and one that does not is fatal; otherwise the result is `<home>/.okteto`, it succeeds exactly when the home resolves and `MkdirAll` succeeds, and the filesystem afterwards is exactly `MkdirAll`'s; the returned folder always exists afterwards and nothing is removed |
| ConfigProperties.OktetoHomeStable | pkg/config/config.go:50-67 | after a successful resolution, resolving again on any filesystem grown from the result gives the same folder and creates nothing |
| ConfigProperties.OktetoHomeIdempotent | pkg/config/config.go:50-67 | calling `GetOktetoHome` on its own result gives the same folder and the same filesystem |
| ConfigProperties.UnsetHomeGivesRelativeFolder | pkg/config/config.go:59-66 | off Windows, with HOME, OKTETO_HOME and OKTETO_FOLDER unset, the okteto folder is the relative path `.okteto` and no error is raised |
| Config.GetNamespaceHome | pkg/config/config.go:70-79 | fails with the okteto folder's error when that fails; otherwise succeeds exactly when `MkdirAll` of the okteto folder joined with the namespace succeeds, returning that path and exactly `MkdirAll`'s filesystem, and fails with `CreateFailed` of that path when it does not; the folder exists afterwards and nothing is removed |
| ConfigProperties.NamespaceHomeIdempotent | pkg/config/config.go:70-79 | a second call returns the same folder, does not fail on the now-existing folder and leaves the filesystem unchanged |
| Config.GetDeploymentHome | pkg/config/config.go:82-91 | fails with the okteto folder's error when that fails; otherwise succeeds exactly when `MkdirAll` of the okteto folder joined with namespace and name succeeds, returning that path and exactly `MkdirAll`'s filesystem, and fails with `CreateFailed` of that path when it does not; the folder exists afterwards and nothing is removed |
| ConfigProperties.DeploymentHomeIdempotent | pkg/config/config.go:82-91 | a second call returns the same folder and leaves the filesystem unchanged |
| Strings.Split | pkg/config/config.go:148-150 | `strings.Split` yields at least one piece, no piece holds the separator, and the first piece is the longest separator-free prefix |
| Strings.JoinSplit | pkg/config/config.go:148-150 | joining the pieces of a split with the separator restores the string |
| Strings.SplitJoin | pkg/config/config.go:148-150 | splitting a join of separator-free pieces restores the pieces |
| Config.SplitKubeConfigEnv | pkg/config/config.go:146-151 | the result is a prefix of the value without the list separator (`;` on Windows, `:` elsewhere), followed in the value by a separator when shorter; a value without separator is returned unchanged |
| Config.GetKubeConfigFile | pkg/config/config.go:136-144 | the home directory is resolved first and its failures are fatal even when KUBECONFIG is set; an empty KUBECONFIG gives `<home>/.kube/config`, a non-empty one its first list entry |
| ConfigProperties.SplitKubeConfigEnvFirstEntry | pkg/config/config.go:146-151 | for a list of separator-free paths joined by the platform list separator, `splitKubeConfigEnv` returns the first path |
| ConfigProperties.KubeConfigIsFirstEntry | pkg/config/config.go:136-151 | when KUBECONFIG is a list of paths joined by the list separator, the kubeconfig file is the first path of the list |
| ConfigProperties.KubeConfigListExample | pkg/config/config.go:136-151 | KUBECONFIG="/a/config:/b/config" on Linux gives `/a/config` |
| Timeout.ComputeTimeout | pkg/config/config.go:155-170 | the timeout is either the 30 s default or an OKTETO_TIMEOUT value that parsed; a parsed override always wins; an unset or unparsable one gives the default |
| Timeout.GetTimeout | pkg/config/config.go:154-173 | the first call computes the timeout from the current environment; a later call returns the cached value and leaves the cache as it is; the cache always holds the returned value afterwards |
| Timeout.CachedRunIsConstant | pkg/config/config.go:155-173 | once a value is cached, every call of any later run returns it, whatever the environment, and none recomputes |
| Timeout.FreshRunComputesOnce | pkg/config/config.go:155-173 | in any run from the initial state the computation happens in exactly one call, the first, and every call returns the value computed from the first call's environment |
| Timeout.TimeoutOverrideExamples | pkg/config/config.go:156-169 | given a parser that reads "2m" as 120 s and rejects "notaduration", OKTETO_TIMEOUT="2m" gives two minutes and "notaduration" gives the 30 s default |

## Left out

- `GetBinaryName`, `GetBinaryFullPath` (config.go:40-47): they only read `os.Args[0]`.
- `VersionString`: a plain global with no behaviour.
- Log messages of `log.Fatalf` and `log.Infof`: a fatal call is a `Failure` carrying the
  reason; the informational messages of `GetTimeout` have no effect on results.
- Concurrency of `sync.Once`: calls are modelled in sequence; at-most-once computation is
  stated over sequential runs (`Timeout.FreshRunComputesOnce`), not over interleavings.
- The grammar of `time.ParseDuration`: it is a parameter of the timeout functions.
- `filepath.Join` cleaning (`.`/`..` and repeated separators) and the Windows `\`
  separator: `Paths.Join` only drops empty elements and inserts `/`.
- The code of `model.FileExists` is not part of this model: existence is membership in
  the path set, and files are not told apart from directories.
- `os.MkdirAll` error causes (permissions, disk space, a file in the way) are folded into
  the abstract set of denied directories; the `0700` permission bits are not modelled.
- `Paths.MkdirAll`: a failed creation may leave newly created ancestors behind (Go creates
  them top-down before the failing one); a failure carries no filesystem, since the
  process exits right after it.
- `Environment.Getenv`: variable names are compared exactly; Windows matches them
  case-insensitively, so the model assumes the environment's names are already in the
  spelling the code uses.
