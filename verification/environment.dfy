/** The process environment, as seen through Go's `os.LookupEnv` and `os.Getenv`. */
module Environment {

  /** Environment variables: a variable is set exactly when it is a key of the map. */
  type Env = map<string, string>

  const OktetoFolderVar := "OKTETO_FOLDER"
  const OktetoHomeVar := "OKTETO_HOME"
  const HomeVar := "HOME"
  const UserProfileVar := "USERPROFILE"
  const HomeDriveVar := "HOMEDRIVE"
  const HomePathVar := "HOMEPATH"
  const KubeConfigVar := "KUBECONFIG"
  const TimeoutVar := "OKTETO_TIMEOUT"

  /** `os.Getenv`: the value of a set variable, and the empty string for an unset one,
      so that an unset variable and one set to "" cannot be told apart. */
  function Getenv(env: Env, key: string): string {
    if key in env then env[key] else ""
  }
}
