/** Properties of the resolution functions that relate several calls, or relate an
    operation to an independent description of what it should compute. */
module ConfigProperties {
  import opened Wrappers
  import opened Strings
  import opened Paths
  import opened Environment
  import opened Config

  /** Precedence chain: the first candidate that is available. */
  function FirstAvailable(candidates: seq<Option<Path>>): (r: Option<Path>)
    ensures r.Some? <==> exists i :: 0 <= i < |candidates| && candidates[i].Some?
    ensures r.Some? ==>
              exists i :: 0 <= i < |candidates| && candidates[i] == r &&
                          forall j :: 0 <= j < i ==> candidates[j].None?
    decreases |candidates|
  {
    if |candidates| == 0 then None
    else if candidates[0].Some? then candidates[0]
    else
      var r := FirstAvailable(candidates[1..]);
      assert forall i :: 1 <= i < |candidates| ==> candidates[i] == candidates[1..][i - 1];
      if r.Some? then
        var k :| 0 <= k < |candidates[1..]| && candidates[1..][k] == r &&
                 forall j :: 0 <= j < k ==> candidates[1..][j].None?;
        assert candidates[k + 1] == r;
        r
      else r
  }

  /** A variable's value as a home candidate: usable only when non-empty. */
  function NonEmptyVar(env: Env, key: string): Option<Path> {
    if Getenv(env, key) != "" then Some(Getenv(env, key)) else None
  }

  /** The Windows home candidates in the order they are tried. The drive/path pair is
      usable only when both halves are non-empty. */
  function WindowsHomeCandidates(env: Env): seq<Option<Path>> {
    [ NonEmptyVar(env, HomeVar),
      NonEmptyVar(env, UserProfileVar),
      if Getenv(env, HomeDriveVar) != "" && Getenv(env, HomePathVar) != ""
      then Some(Getenv(env, HomeDriveVar) + Getenv(env, HomePathVar))
      else None ]
  }

  /** `homedirWindows` returns the first usable candidate, and fails exactly when there
      is none. */
  lemma HomedirWindowsIsFirstCandidate(env: Env)
    ensures HomedirWindows(env).Success? <==> FirstAvailable(WindowsHomeCandidates(env)).Some?
    ensures HomedirWindows(env).Success? ==>
              Some(HomedirWindows(env).value) == FirstAvailable(WindowsHomeCandidates(env))
  {
    var c := WindowsHomeCandidates(env);
    var r := FirstAvailable(c);
    if HomedirWindows(env).Success? {
      // some candidate is usable, so the chain yields one
      assert c[0].Some? || c[1].Some? || c[2].Some?;
    }
    if r.Some? {
      var i :| 0 <= i < |c| && c[i] == r && forall j :: 0 <= j < i ==> c[j].None?;
      if i == 0 {
        assert r == NonEmptyVar(env, HomeVar);
      } else if i == 1 {
        assert c[0].None?;
      } else {
        assert c[0].None? && c[1].None?;
      }
    }
  }

  /** The home directory only depends on the filesystem through the existence of
      OKTETO_HOME, so a successful resolution stays the same as the filesystem grows. */
  lemma UserHomeDirStable(env: Env, fs: FileSystem, fs': FileSystem, windows: bool)
    requires Grows(fs, fs')
    requires GetUserHomeDir(env, fs, windows).Success?
    ensures GetUserHomeDir(env, fs', windows) == GetUserHomeDir(env, fs, windows)
  {
  }

  /** Once the okteto folder has been resolved, resolving it again on any filesystem
      that grew from the result gives the same folder and creates nothing. */
  lemma OktetoHomeStable(env: Env, fs: FileSystem, windows: bool, fs': FileSystem)
    requires GetOktetoHome(env, fs, windows).Success?
    requires Grows(GetOktetoHome(env, fs, windows).value.fs, fs')
    ensures GetOktetoHome(env, fs', windows) == Success(Resolved(GetOktetoHome(env, fs, windows).value.path, fs'))
  {
    var first := GetOktetoHome(env, fs, windows).value;
    assert Exists(fs', first.path);
    if OktetoFolderVar !in env {
      UserHomeDirStable(env, fs, fs', windows);
      assert MkdirAll(fs', first.path) == Some(fs');
    }
  }

  /** `GetOktetoHome` is idempotent: same folder, same filesystem. */
  lemma OktetoHomeIdempotent(env: Env, fs: FileSystem, windows: bool)
    requires GetOktetoHome(env, fs, windows).Success?
    ensures GetOktetoHome(env, GetOktetoHome(env, fs, windows).value.fs, windows) == GetOktetoHome(env, fs, windows)
  {
    OktetoHomeStable(env, fs, windows, GetOktetoHome(env, fs, windows).value.fs);
  }

  /** `GetNamespaceHome` is idempotent: a second call returns the same folder, does not
      fail because the folder already exists, and leaves the filesystem as it is. */
  lemma NamespaceHomeIdempotent(env: Env, fs: FileSystem, windows: bool, namespace: string)
    requires GetNamespaceHome(env, fs, windows, namespace).Success?
    ensures GetNamespaceHome(env, GetNamespaceHome(env, fs, windows, namespace).value.fs, windows, namespace)
            == GetNamespaceHome(env, fs, windows, namespace)
  {
    var r := GetNamespaceHome(env, fs, windows, namespace).value;
    var home := GetOktetoHome(env, fs, windows).value;
    OktetoHomeStable(env, fs, windows, r.fs);
    assert MkdirAll(r.fs, r.path) == Some(r.fs);
  }

  /** `GetDeploymentHome` is idempotent in the same way. */
  lemma DeploymentHomeIdempotent(env: Env, fs: FileSystem, windows: bool, namespace: string, name: string)
    requires GetDeploymentHome(env, fs, windows, namespace, name).Success?
    ensures GetDeploymentHome(env, GetDeploymentHome(env, fs, windows, namespace, name).value.fs, windows, namespace, name)
            == GetDeploymentHome(env, fs, windows, namespace, name)
  {
    var r := GetDeploymentHome(env, fs, windows, namespace, name).value;
    OktetoHomeStable(env, fs, windows, r.fs);
    assert MkdirAll(r.fs, r.path) == Some(r.fs);
  }

  /** `splitKubeConfigEnv` of a path list picks the list's first path. */
  lemma SplitKubeConfigEnvFirstEntry(entries: seq<Path>, windows: bool)
    requires |entries| >= 1
    requires forall i :: 0 <= i < |entries| ==> ListSeparator(windows) !in entries[i]
    ensures SplitKubeConfigEnv(JoinWith(entries, ListSeparator(windows)), windows) == entries[0]
  {
    SplitJoin(entries, ListSeparator(windows));
  }

  /** With KUBECONFIG holding a list of paths, the kubeconfig file is the first one. */
  lemma KubeConfigIsFirstEntry(env: Env, fs: FileSystem, windows: bool, entries: seq<Path>)
    requires |entries| >= 1
    requires forall i :: 0 <= i < |entries| ==> ListSeparator(windows) !in entries[i]
    requires Getenv(env, KubeConfigVar) == JoinWith(entries, ListSeparator(windows))
    requires Getenv(env, KubeConfigVar) != ""
    requires GetUserHomeDir(env, fs, windows).Success?
    ensures GetKubeConfigFile(env, fs, windows) == Success(entries[0])
  {
    SplitKubeConfigEnvFirstEntry(entries, windows);
  }

  /** Off Windows an unset HOME is not an error: the okteto folder becomes the relative
      path `.okteto`, resolved against the working directory. */
  lemma UnsetHomeGivesRelativeFolder(env: Env, fs: FileSystem)
    requires OktetoFolderVar !in env && OktetoHomeVar !in env && HomeVar !in env
    requires OktetoFolderName !in fs.denied
    ensures GetOktetoHome(env, fs, false).Success?
    ensures GetOktetoHome(env, fs, false).value.path == OktetoFolderName
  {
    assert NonEmpty(["", OktetoFolderName]) == [OktetoFolderName];
    assert forall q :: AncestorOrSelf(q, OktetoFolderName) ==> q == OktetoFolderName;
  }

  /** KUBECONFIG="/a/config:/b/config" on Linux selects "/a/config". */
  lemma KubeConfigListExample(fs: FileSystem)
    ensures GetKubeConfigFile(map[HomeVar := "/home/dev", KubeConfigVar := "/a/config:/b/config"], fs, false)
            == Success("/a/config")
  {
    var env := map[HomeVar := "/home/dev", KubeConfigVar := "/a/config:/b/config"];
    assert Getenv(env, KubeConfigVar) == JoinWith(["/a/config", "/b/config"], ':');
    KubeConfigIsFirstEntry(env, fs, false, ["/a/config", "/b/config"]);
  }

  /** On Windows with only HOMEDRIVE and HOMEPATH set the home is their concatenation;
      with none of the four variables set the resolution fails. */
  lemma WindowsHomeExamples(fs: FileSystem)
    ensures GetUserHomeDir(map[HomeDriveVar := "C:", HomePathVar := "\\Users\\x"], fs, true)
            == Success("C:\\Users\\x")
    ensures GetUserHomeDir(map[], fs, true) == Failure(NoHomeDirectory)
  {
    var env := map[HomeDriveVar := "C:", HomePathVar := "\\Users\\x"];
    assert Getenv(env, HomeVar) == "" && Getenv(env, UserProfileVar) == "";
    assert Getenv(env, HomeDriveVar) + Getenv(env, HomePathVar) == "C:\\Users\\x";
  }
}
