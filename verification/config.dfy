/** Resolution of the home directory, the okteto folder, the per-namespace and
    per-deployment folders and the kubeconfig file (pkg/config/config.go).

    Every operation is a pure function of the environment, the filesystem and the
    platform. A `Failure` result is the process exit performed by `log.Fatalf`; a
    successful directory resolution also returns the filesystem after `os.MkdirAll`. */
module Config {
  import opened Wrappers
  import opened Strings
  import opened Paths
  import opened Environment

  /** Name of the okteto folder below the home directory. */
  const OktetoFolderName := ".okteto"

  /** Why a resolution terminated the process. */
  datatype ConfigError =
    | FolderMissing(folder: Path)     // OKTETO_FOLDER names a path that does not exist
    | HomeMissing(home: Path)         // OKTETO_HOME names a path that does not exist
    | NoHomeDirectory                 // Windows: none of the home variables is usable
    | CreateFailed(dir: Path)         // os.MkdirAll returned an error

  /** A resolved directory together with the filesystem once it has been created. */
  datatype Resolved = Resolved(path: Path, fs: FileSystem)

  /** `homedirWindows`: HOME if non-empty, else USERPROFILE if non-empty, else
      HOMEDRIVE followed by HOMEPATH when both are non-empty; an error otherwise. */
  function HomedirWindows(env: Env): (r: Result<Path, ConfigError>)
    ensures Getenv(env, HomeVar) != "" ==> r == Success(Getenv(env, HomeVar))
    ensures Getenv(env, HomeVar) == "" && Getenv(env, UserProfileVar) != "" ==>
              r == Success(Getenv(env, UserProfileVar))
    ensures r.Failure? <==>
              Getenv(env, HomeVar) == "" && Getenv(env, UserProfileVar) == "" &&
              (Getenv(env, HomeDriveVar) == "" || Getenv(env, HomePathVar) == "")
    ensures r.Failure? ==> r.error == NoHomeDirectory
    ensures r.Success? ==> r.value != ""
  {
    var home := Getenv(env, HomeVar);
    if home != "" then Success(home)
    else
      var profile := Getenv(env, UserProfileVar);
      if profile != "" then Success(profile)
      else
        var drive := Getenv(env, HomeDriveVar);
        var path := Getenv(env, HomePathVar);
        if drive == "" || path == "" then Failure(NoHomeDirectory)
        else Success(drive + path)
  }

  /** `GetUserHomeDir`: a set OKTETO_HOME wins and must exist; otherwise Windows asks
      `homedirWindows` and every other platform takes HOME unchecked, even when empty.
      The filesystem is only read. */
  function GetUserHomeDir(env: Env, fs: FileSystem, windows: bool): (r: Result<Path, ConfigError>)
    ensures OktetoHomeVar in env ==>
              r == (if Exists(fs, env[OktetoHomeVar]) then Success(env[OktetoHomeVar])
                    else Failure(HomeMissing(env[OktetoHomeVar])))
    ensures OktetoHomeVar !in env && windows ==> r == HomedirWindows(env)
    ensures OktetoHomeVar !in env && !windows ==> r == Success(Getenv(env, HomeVar))
    ensures r.Failure? ==> (OktetoHomeVar in env || windows)
    ensures r.Success? && r.value == "" ==>
              (OktetoHomeVar in env && Exists(fs, "")) ||
              (OktetoHomeVar !in env && !windows && Getenv(env, HomeVar) == "")
  {
    if OktetoHomeVar in env then
      var v := env[OktetoHomeVar];
      if !Exists(fs, v) then Failure(HomeMissing(v)) else Success(v)
    else if windows then
      HomedirWindows(env)
    else
      Success(Getenv(env, HomeVar))
  }

  /** `GetOktetoHome`: a set OKTETO_FOLDER wins, must exist and is returned without
      touching the filesystem; otherwise `<home>/.okteto` is created. Either way the
      returned directory exists afterwards and nothing that existed disappears. */
  function GetOktetoHome(env: Env, fs: FileSystem, windows: bool): (r: Result<Resolved, ConfigError>)
    ensures OktetoFolderVar in env ==>
              r == (if Exists(fs, env[OktetoFolderVar]) then Success(Resolved(env[OktetoFolderVar], fs))
                    else Failure(FolderMissing(env[OktetoFolderVar])))
    ensures OktetoFolderVar !in env ==>
              (r.Success? <==>
                 GetUserHomeDir(env, fs, windows).Success? &&
                 MkdirAll(fs, Join([GetUserHomeDir(env, fs, windows).value, OktetoFolderName])).Some?)
    ensures OktetoFolderVar !in env && r.Success? ==>
              r.value.path == Join([GetUserHomeDir(env, fs, windows).value, OktetoFolderName])
    ensures OktetoFolderVar !in env && r.Success? ==> r.value.fs == MkdirAll(fs, r.value.path).value
    ensures r.Success? ==> Exists(r.value.fs, r.value.path) && Grows(fs, r.value.fs)
  {
    if OktetoFolderVar in env then
      var v := env[OktetoFolderVar];
      if !Exists(fs, v) then Failure(FolderMissing(v)) else Success(Resolved(v, fs))
    else
      var home :- GetUserHomeDir(env, fs, windows);
      var d := Join([home, OktetoFolderName]);
      CreateDir(fs, d)
  }

  /** `os.MkdirAll(d, 0700)` followed by `log.Fatalf` on error. */
  function CreateDir(fs: FileSystem, d: Path): (r: Result<Resolved, ConfigError>)
    ensures r.Success? <==> MkdirAll(fs, d).Some?
    ensures r.Success? ==> r.value == Resolved(d, MkdirAll(fs, d).value)
    ensures r.Failure? ==> r.error == CreateFailed(d)
  {
    match MkdirAll(fs, d)
    case None => Failure(CreateFailed(d))
    case Some(fs') => Success(Resolved(d, fs'))
  }

  /** `GetNamespaceHome`: the folder `<okteto home>/<namespace>`, created. */
  function GetNamespaceHome(env: Env, fs: FileSystem, windows: bool, namespace: string): (r: Result<Resolved, ConfigError>)
    ensures GetOktetoHome(env, fs, windows).Failure? ==> r == Failure(GetOktetoHome(env, fs, windows).error)
    ensures GetOktetoHome(env, fs, windows).Success? ==>
              var home := GetOktetoHome(env, fs, windows).value;
              var d := Join([home.path, namespace]);
              (r.Success? <==> MkdirAll(home.fs, d).Some?) &&
              (r.Success? ==> r.value.path == d && r.value.fs == MkdirAll(home.fs, d).value) &&
              (r.Failure? ==> r.error == CreateFailed(d))
    ensures r.Success? ==> Exists(r.value.fs, r.value.path) && Grows(fs, r.value.fs)
  {
    var home :- GetOktetoHome(env, fs, windows);
    CreateDir(home.fs, Join([home.path, namespace]))
  }

  /** `GetDeploymentHome`: the folder `<okteto home>/<namespace>/<name>`, created. */
  function GetDeploymentHome(env: Env, fs: FileSystem, windows: bool, namespace: string, name: string): (r: Result<Resolved, ConfigError>)
    ensures GetOktetoHome(env, fs, windows).Failure? ==> r == Failure(GetOktetoHome(env, fs, windows).error)
    ensures GetOktetoHome(env, fs, windows).Success? ==>
              var home := GetOktetoHome(env, fs, windows).value;
              var d := Join([home.path, namespace, name]);
              (r.Success? <==> MkdirAll(home.fs, d).Some?) &&
              (r.Success? ==> r.value.path == d && r.value.fs == MkdirAll(home.fs, d).value) &&
              (r.Failure? ==> r.error == CreateFailed(d))
    ensures r.Success? ==> Exists(r.value.fs, r.value.path) && Grows(fs, r.value.fs)
  {
    var home :- GetOktetoHome(env, fs, windows);
    CreateDir(home.fs, Join([home.path, namespace, name]))
  }

  /** The separator of path lists such as KUBECONFIG (`filepath.ListSeparator`). */
  function ListSeparator(windows: bool): char {
    if windows then ';' else ':'
  }

  /** `splitKubeConfigEnv`: the first entry of a path list, that is the longest prefix
      of `value` free of the list separator. */
  function SplitKubeConfigEnv(value: string, windows: bool): (first: Path)
    ensures first <= value
    ensures ListSeparator(windows) !in first
    ensures |first| < |value| ==> value[|first|] == ListSeparator(windows)
    ensures ListSeparator(windows) !in value ==> first == value
  {
    Split(value, ListSeparator(windows))[0]
  }

  /** `GetKubeConfigFile`: the home directory is resolved first, so its fatal cases
      apply even when KUBECONFIG is set; a non-empty KUBECONFIG then gives its first
      entry, and otherwise the result is `<home>/.kube/config`. No existence check. */
  function GetKubeConfigFile(env: Env, fs: FileSystem, windows: bool): (r: Result<Path, ConfigError>)
    ensures r.Success? <==> GetUserHomeDir(env, fs, windows).Success?
    ensures r.Failure? ==> r.error == GetUserHomeDir(env, fs, windows).error
    ensures r.Success? && Getenv(env, KubeConfigVar) == "" ==>
              r.value == Join([GetUserHomeDir(env, fs, windows).value, ".kube", "config"])
    ensures r.Success? && Getenv(env, KubeConfigVar) != "" ==>
              r.value <= Getenv(env, KubeConfigVar) &&
              ListSeparator(windows) !in r.value &&
              (|r.value| < |Getenv(env, KubeConfigVar)| ==>
                 Getenv(env, KubeConfigVar)[|r.value|] == ListSeparator(windows))
  {
    var home :- GetUserHomeDir(env, fs, windows);
    var kubeconfigEnv := Getenv(env, KubeConfigVar);
    if |kubeconfigEnv| > 0 then Success(SplitKubeConfigEnv(kubeconfigEnv, windows))
    else Success(Join([home, ".kube", "config"]))
  }
}
