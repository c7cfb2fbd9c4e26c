/** The readiness decision of `update_status`: whether the upload button may be
    enabled, and how the upload mode is shown. */
module Readiness {
  import opened Wrappers

  /** The four required settings and the optional mode, as `os.getenv` returns them
      after `.env` was loaded (`None` for an unset variable). */
  datatype Settings = Settings(
    token: Option<string>, username: Option<string>, repo: Option<string>,
    folder: Option<string>, mode: Option<string>)

  /** Python truthiness of a `getenv` result: set and non-empty. */
  predicate Truthy(v: Option<string>) {
    v.Some? && v.value != ""
  }

  /** `all([token, username, repo, folder])`. */
  predicate Complete(s: Settings) {
    Truthy(s.token) && Truthy(s.username) && Truthy(s.repo) && Truthy(s.folder)
  }

  /** `os.getenv('UPLOAD_MODE', 'realtime')`: the default applies only when unset. */
  function ModeOf(s: Settings): string {
    s.mode.GetOr("realtime")
  }

  const KnownModes: set<string> := {"realtime", "schedule", "hybrid"}

  /** `mode_text.get(mode, mode)`: the label of a known mode, any other mode verbatim. */
  function ModeLabel(mode: string): (shown: string)
    ensures mode !in KnownModes ==> shown == mode
    ensures mode in KnownModes ==> shown != mode && shown !in KnownModes
  {
    if mode == "realtime" then "실시간 감시"
    else if mode == "schedule" then "시간 예약"
    else if mode == "hybrid" then "실시간 + 예약"
    else mode
  }

  /** The three known modes get three different labels. */
  lemma KnownLabelsDistinct(a: string, b: string)
    requires a in KnownModes && b in KnownModes && a != b
    ensures ModeLabel(a) != ModeLabel(b)
  {
  }

  /** What `update_status` finds: no `.env` file, a file whose loading raised, or the
      settings read after loading it. */
  datatype EnvFile = Absent | Unreadable | Loaded(settings: Settings)

  datatype Status = NoConfig | ConfigError | Incomplete | Ready

  /** What happens to the upload button: enabled, disabled, or left alone. */
  datatype ButtonChange = Enable | Disable | Untouched

  /** What a refresh shows: the status line, the button change, and the mode text
      (`None` when the mode line is left as it was). */
  datatype View = View(status: Status, button: ButtonChange, modeText: Option<string>)

  const NotSet: string := "설정되지 않음"

  /** The button rule shared by every branch: a running worker keeps its stop button. */
  function ButtonFor(ready: bool, running: bool): ButtonChange {
    if running then Untouched else if ready then Enable else Disable
  }

  /** `update_status`. */
  function UpdateStatus(env: EnvFile, running: bool): (v: View)
    ensures v.status == Ready <==> env.Loaded? && Complete(env.settings)
    ensures v.status == NoConfig <==> env.Absent?
    ensures v.status == ConfigError <==> env.Unreadable?
    ensures v.button == Untouched <==> running
    ensures v.button == Enable <==> !running && env.Loaded? && Complete(env.settings)
    ensures v.status == Ready ==> v.modeText == Some(ModeLabel(ModeOf(env.settings)))
    ensures v.status == NoConfig ==> v.modeText == Some(NotSet)
    ensures v.status in {Incomplete, ConfigError} ==> v.modeText.None?
  {
    match env
    case Absent => View(NoConfig, ButtonFor(false, running), Some(NotSet))
    case Unreadable => View(ConfigError, ButtonFor(false, running), None)
    case Loaded(s) =>
      if Complete(s) then View(Ready, ButtonFor(true, running), Some(ModeLabel(ModeOf(s))))
      else View(Incomplete, ButtonFor(false, running), None)
  }

  /** Without a mode setting the panel shows the real-time label. */
  lemma DefaultModeIsRealtime(s: Settings)
    requires s.mode.None?
    ensures ModeLabel(ModeOf(s)) == "실시간 감시"
  {
  }

  /** An empty value counts as missing: clearing any one of the four settings
      disables a stopped panel's upload button. */
  lemma EmptySettingDisables(s: Settings, running: bool)
    requires !running
    requires s.token == Some("") || s.username == Some("") || s.repo == Some("") || s.folder == Some("")
    ensures UpdateStatus(Loaded(s), running).button == Disable
  {
  }
}
