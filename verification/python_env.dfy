/** How the control panel describes the Python interpreter it runs under, shown in the
    package-installation dialog: `detect_environment_type` and `get_environment_message`. */
module PythonEnv {
  import opened Wrappers
  import opened Strings

  /** What `sys` says about the interpreter: `sys.executable`, `sys.prefix`,
      `sys.base_prefix`, whether `sys.real_prefix` exists, and `os.sep`. */
  datatype Interpreter = Interpreter(
    executable: string, prefix: string, basePrefix: string, hasRealPrefix: bool, sep: char)

  datatype EnvKind = CondaEnv(name: string) | CondaBase | VirtualEnv(name: string) | SystemPython

  /** The Conda test on the lower-cased interpreter path. */
  predicate LooksLikeConda(path: string) {
    var lower := Lower(path);
    Contains(lower, "conda") || Contains(lower, "miniconda") || Contains(lower, "anaconda")
  }

  /** The last two alternatives of the Conda test add nothing: both names contain "conda". */
  lemma CondaTestIsOneSubstring(path: string)
    ensures LooksLikeConda(path) <==> Contains(Lower(path), "conda")
  {
    var lower := Lower(path);
    ContainsAt("miniconda", "conda", 4);
    ContainsAt("anaconda", "conda", 3);
    if Contains(lower, "miniconda") { ContainsTransitive(lower, "miniconda", "conda"); }
    if Contains(lower, "anaconda") { ContainsTransitive(lower, "anaconda", "conda"); }
  }

  /** `python_path.split('envs')[1].split(os.sep)[1]`: the text after the first "envs" up
      to its next "envs", and in that the segment between the first and second
      separator. `None` is the IndexError raised when that text has no separator. */
  function CondaEnvName(path: string, sep: char): (r: Option<string>)
    requires Contains(path, "envs")
    ensures r.Some? ==> sep !in r.value && !Contains(r.value, "envs")
    ensures r.None? <==> !Contains(Split(path, "envs")[1], [sep])
  {
    var pieces := Split(path, "envs");
    var segments := Split(pieces[1], [sep]);
    if |segments| > 1 then
      SegmentLacksSep(segments[1], sep);
      JoinContainsParts(segments, [sep], 1);
      assert !Contains(segments[1], "envs") by {
        if Contains(segments[1], "envs") {
          ContainsTransitive(pieces[1], segments[1], "envs");
        }
      }
      Some(segments[1])
    else None
  }

  /** `os.path.basename(prefix)`: what follows the last separator. */
  function Basename(path: string, sep: char): (r: string)
    ensures sep !in r
  {
    var segments := Split(path, [sep]);
    SegmentLacksSep(segments[|segments| - 1], sep);
    segments[|segments| - 1]
  }

  /** `basename` is the text after the last separator, or the whole path when it
      has none. */
  lemma BasenameOf(dir: string, sep: char, name: string)
    requires sep !in name
    ensures Basename(name, sep) == name
    ensures Basename(dir + [sep] + name, sep) == name
  {
    SplitWithoutSep(name, sep);
    BasenameAfterLast(dir, sep, name);
  }

  lemma BasenameAfterLast(dir: string, sep: char, name: string)
    requires sep !in name
    ensures Basename(dir + [sep] + name, sep) == name
  {
    var path := dir + [sep] + name;
    assert path[|dir| + 1..] == name;
    BasenameAt(path, sep, |dir|);
  }

  lemma BasenameAt(path: string, sep: char, n: nat)
    requires n < |path| && path[n] == sep && sep !in path[n + 1..]
    ensures Basename(path, sep) == path[n + 1..]
  {
    SplitLast(path, sep, n);
  }

  /** For a path whose first "envs" is at `i` and is followed by a separator, the
      environment name is the segment up to the next separator, provided no later
      "envs" cuts it short. */
  lemma CondaEnvNameOf(path: string, sep: char, i: nat, name: string, rest: string)
    requires IndexOf(path, "envs") == Some(i)
    requires path[i + 4..] == [sep] + name + [sep] + rest
    requires sep !in name
    requires !Contains(path[i + 4..], "envs")
    ensures CondaEnvName(path, sep) == Some(name)
  {
    SplitOnce(path, "envs", i);
    SplitSecond(path[i + 4..], sep, name, rest);
  }

  lemma SegmentLacksSep(segment: string, sep: char)
    requires !Contains(segment, [sep])
    ensures sep !in segment
  {
    forall i | 0 <= i < |segment| ensures segment[i] != sep {
      CharContained(segment, i);
    }
  }

  /** Every piece of a join occurs in the joined string. */
  lemma {:induction false} JoinContainsParts(parts: seq<string>, sep: string, k: nat)
    requires k < |parts|
    ensures Contains(Join(parts, sep), parts[k])
    decreases |parts|
  {
    var whole := Join(parts, sep);
    if |parts| == 1 {
      assert parts[k] == whole;
      assert whole[0..|whole|] == whole;
      ContainsAt(whole, whole, 0);
    } else if k == 0 {
      assert whole[0..|parts[0]|] == parts[0];
      ContainsAt(whole, parts[0], 0);
    } else {
      var rest := Join(parts[1..], sep);
      JoinContainsParts(parts[1..], sep, k - 1);
      var off := |parts[0] + sep|;
      assert whole == parts[0] + sep + rest;
      assert whole[off..off + |rest|] == rest;
      ContainsAt(whole, rest, off);
      ContainsTransitive(whole, rest, parts[k]);
    }
  }

  /** `detect_environment_type` as a classification; `None` when it raises. */
  function Classify(py: Interpreter): (r: Option<EnvKind>)
    ensures r == Some(CondaBase) <==> LooksLikeConda(py.executable) && !Contains(py.executable, "envs")
    ensures r.None? ==> LooksLikeConda(py.executable) && Contains(py.executable, "envs")
    ensures r.Some? && r.value.CondaEnv? ==> LooksLikeConda(py.executable) && Contains(py.executable, "envs")
    ensures r.Some? && r.value.VirtualEnv? <==>
      !LooksLikeConda(py.executable) && (py.hasRealPrefix || py.basePrefix != py.prefix)
    ensures r == Some(SystemPython) <==>
      !LooksLikeConda(py.executable) && !py.hasRealPrefix && py.basePrefix == py.prefix
    ensures r.Some? && (r.value.CondaEnv? || r.value.VirtualEnv?) ==> py.sep !in r.value.name
    ensures r.Some? && r.value.CondaEnv? ==>
      Contains(py.executable, "envs") && CondaEnvName(py.executable, py.sep) == Some(r.value.name)
    ensures r.None? ==> CondaEnvName(py.executable, py.sep).None?
    ensures r.Some? && r.value.VirtualEnv? ==> r.value.name == Basename(py.prefix, py.sep)
  {
    if LooksLikeConda(py.executable) then
      if Contains(py.executable, "envs") then
        match CondaEnvName(py.executable, py.sep)
        case None => None
        case Some(name) => Some(CondaEnv(name))
      else Some(CondaBase)
    else if py.hasRealPrefix || py.basePrefix != py.prefix then
      Some(VirtualEnv(Basename(py.prefix, py.sep)))
    else Some(SystemPython)
  }

  const CondaEnvPrefix: string := "🐍 Conda 가상환경 ("
  const CondaBaseText: string := "🐍 Conda 기본환경"
  const VirtualEnvPrefix: string := "🔧 가상환경 ("
  const SystemText: string := "💻 시스템 Python"

  /** The text `detect_environment_type` returns for a classification. */
  function Describe(k: EnvKind): string {
    match k
    case CondaEnv(name) => CondaEnvPrefix + name + ")"
    case CondaBase => CondaBaseText
    case VirtualEnv(name) => VirtualEnvPrefix + name + ")"
    case SystemPython => SystemText
  }

  const CondaMessage: string := "✅ Conda 환경에서 실행 중입니다. 안전하게 설치됩니다!"
  const VirtualEnvMessage: string := "✅ 가상환경에서 실행 중입니다. 안전하게 설치됩니다!"
  const SystemMessage: string := "⚠️  시스템 Python에서 실행 중입니다. 가상환경 사용을 권장합니다."

  /** `get_environment_message`: decided by substrings of the description. */
  function EnvironmentMessage(envType: string): string {
    if Contains(envType, "Conda") then CondaMessage
    else if Contains(envType, "가상환경") then VirtualEnvMessage
    else SystemMessage
  }

  /** The message each kind is meant to get. */
  function MessageFor(k: EnvKind): string {
    match k
    case CondaEnv(_) => CondaMessage
    case CondaBase => CondaMessage
    case VirtualEnv(_) => VirtualEnvMessage
    case SystemPython => SystemMessage
  }

  /** Each description gets the message of its kind, provided the name of a virtual
      environment does not contain "Conda" (one that does gets the Conda message, as
      `VirtualEnvNamedConda` shows). */
  lemma MessageMatchesKind(k: EnvKind)
    requires k.VirtualEnv? ==> !Contains(k.name, "Conda")
    ensures EnvironmentMessage(Describe(k)) == MessageFor(k)
  {
    match k
    case CondaEnv(name) => CondaEnvDescription(name);
    case CondaBase => CondaBaseDescription();
    case VirtualEnv(name) => VirtualEnvDescription(name);
    case SystemPython => SystemDescription();
  }

  /** The exception to the rule above: a virtual environment whose name contains
      "Conda" is given the Conda message. */
  lemma VirtualEnvNamedConda(name: string)
    requires Contains(name, "Conda")
    ensures EnvironmentMessage(Describe(VirtualEnv(name))) == CondaMessage
    ensures MessageFor(VirtualEnv(name)) != CondaMessage
  {
    ContainsMiddle(VirtualEnvPrefix, name, ")");
    ContainsTransitive(VirtualEnvPrefix + name + ")", name, "Conda");
    MessagesDiffer();
  }

  lemma MessagesDiffer()
    ensures VirtualEnvMessage != CondaMessage
  {
    assert VirtualEnvMessage[2] != CondaMessage[2];
  }

  lemma CondaEnvDescription(name: string)
    ensures Contains(CondaEnvPrefix + name + ")", "Conda")
  {
    var d := CondaEnvPrefix + name + ")";
    forall k | 0 <= k < 5 ensures d[2 + k] == "Conda"[k] {
      assert d[2 + k] == CondaEnvPrefix[2 + k];
    }
    ContainsAtChars(d, "Conda", 2);
  }

  lemma CondaBaseDescription()
    ensures Contains(CondaBaseText, "Conda")
  {
    ContainsAtChars(CondaBaseText, "Conda", 2);
  }

  lemma VirtualEnvDescription(name: string)
    requires !Contains(name, "Conda")
    ensures !Contains(VirtualEnvPrefix + name + ")", "Conda")
    ensures Contains(VirtualEnvPrefix + name + ")", "가상환경")
  {
    VirtualEnvLacksConda(name);
    VirtualEnvMentionsVenv(name);
  }

  lemma VirtualEnvLacksConda(name: string)
    requires !Contains(name, "Conda")
    ensures !Contains(VirtualEnvPrefix + name + ")", "Conda")
  {
    VirtualEnvPrefixFacts();
    if Contains(VirtualEnvPrefix + name + ")", "Conda") {
      ContainsOnlyInMiddle(VirtualEnvPrefix, name, ")", "Conda");
    }
  }

  lemma VirtualEnvMentionsVenv(name: string)
    ensures Contains(VirtualEnvPrefix + name + ")", "가상환경")
  {
    var d := VirtualEnvPrefix + name + ")";
    forall k | 0 <= k < 4 ensures d[2 + k] == "가상환경"[k] {
      assert d[2 + k] == VirtualEnvPrefix[2 + k];
    }
    ContainsAtChars(d, "가상환경", 2);
  }

  lemma VirtualEnvPrefixFacts()
    ensures 'C' !in VirtualEnvPrefix
  {
  }

  lemma SystemDescription()
    ensures !Contains(SystemText, "Conda") && !Contains(SystemText, "가상환경")
  {
    var d := SystemText;
    assert |d| == 12;
    assert forall i :: 0 <= i < 12 ==> d[i] != 'C' && d[i] != '가';
    MissingFirstChar(d, "Conda");
    MissingFirstChar(d, "가상환경");
  }
}
