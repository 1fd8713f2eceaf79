/**
 The persisted preference of the wrapper: one key-value mapping kept in a
 JSON file under the user's configuration directory, loaded fail-open, and
 the `config` sub-command (`show`, `set <url>`, `reset`) that manages it.

 The file is abstracted to what loading can observe of it: absent, present but
 unreadable or not valid JSON, or present holding a string-to-string object.
 */
module Config {
  import opened Strings

  /** The built-in index the wrapper falls back to. */
  const DefaultIndexUrl: string := "https://nexus.uclv.edu.cu/repository/pypi.org/"

  /** The one key the wrapper reads and writes. */
  const IndexUrlKey: string := "index_url"

  /** What the configuration file holds, as loading sees it. */
  datatype FileState =
    | Absent
    | Corrupt
    | Stored(m: map<string, string>)

  /** The configuration directory and the file inside it. */
  datatype Disk = Disk(dirExists: bool, file: FileState)

  /** A configuration file only ever exists inside an existing directory. */
  predicate Consistent(d: Disk) {
    !d.file.Absent? ==> d.dirExists
  }

  /** The mapping used whenever no readable configuration exists. */
  function DefaultConfig(): (config: map<string, string>)
    ensures config.Keys == {IndexUrlKey} && config[IndexUrlKey] == DefaultIndexUrl
  {
    map[IndexUrlKey := DefaultIndexUrl]
  }

  /** `load_config`: the stored mapping, or the default one when the file is missing or unreadable. */
  function LoadConfig(f: FileState): (config: map<string, string>)
    ensures IndexUrlKey !in config ==> f.Stored?
  {
    match f
    case Absent => DefaultConfig()
    case Corrupt => DefaultConfig()
    case Stored(m) => m
  }

  /** `get_index_url`: the `index_url` entry of the loaded mapping, or the default. */
  function GetIndexUrl(f: FileState): (url: string)
    ensures url == DefaultIndexUrl || (f.Stored? && IndexUrlKey in f.m && url == f.m[IndexUrlKey])
    ensures f.Stored? && IndexUrlKey in f.m ==> url == f.m[IndexUrlKey]
  {
    var config := LoadConfig(f);
    if IndexUrlKey in config then config[IndexUrlKey] else DefaultIndexUrl
  }

  /** The scheme check of `config set`. */
  predicate HasHttpScheme(url: string)
    ensures HasHttpScheme(url) ==>
      && 7 <= |url| && url[..4] == "http"
      && (url[4..7] == "://" || (8 <= |url| && url[4..8] == "s://"))
  {
    if StartsWith(url, "http://") then
      assert url[..4] == url[..7][..4];
      assert url[4..7] == url[..7][4..7];
      true
    else if StartsWith(url, "https://") then
      assert url[..4] == url[..8][..4];
      assert url[4..8] == url[..8][4..8];
      true
    else
      false
  }

  /** What the `config` sub-command reports, in place of its printed messages. */
  datatype Report =
    | Showed(url: string, isDefault: bool)
    | SetUsage
    | InvalidUrl(url: string)
    | Updated(url: string)
    | ResetDone(removed: bool)
    | UnknownSubcommand(name: string)

  /** The effect of one `config` sub-command: the new disk, the report and the exit code. */
  datatype Step = Step(disk: Disk, report: Report, code: int)

  /** The sub-command is `show`, or there is none. */
  predicate IsShow(args: seq<string>) {
    |args| == 0 || args[0] == "show"
  }

  /** `config set` with a URL that passes the scheme check. */
  predicate IsAcceptedSet(args: seq<string>) {
    |args| >= 2 && args[0] == "set" && HasHttpScheme(args[1])
  }

  /** `handle_config_command` as a function of the disk before the call. */
  function ConfigStep(d: Disk, args: seq<string>): (r: Step)
    ensures r.code == 0 <==> IsShow(args) || args[0] == "reset" || IsAcceptedSet(args)
    ensures r.code == 1 <==> !(IsShow(args) || args[0] == "reset" || IsAcceptedSet(args))
    ensures r.code == 1 ==> r.disk == d
    ensures Consistent(d) ==> Consistent(r.disk)
    ensures IsAcceptedSet(args) ==> r.disk.dirExists && r.disk.file.Stored?
  {
    if IsShow(args) then
      var url := GetIndexUrl(d.file);
      Step(d, Showed(url, url == DefaultIndexUrl), 0)
    else if args[0] == "set" then
      if |args| < 2 then
        Step(d, SetUsage, 1)
      else if !HasHttpScheme(args[1]) then
        Step(d, InvalidUrl(args[1]), 1)
      else
        Step(Disk(true, Stored(LoadConfig(d.file)[IndexUrlKey := args[1]])), Updated(args[1]), 0)
    else if args[0] == "reset" then
      Step(Disk(d.dirExists, Absent), ResetDone(!d.file.Absent?), 0)
    else
      Step(d, UnknownSubcommand(args[0]), 1)
  }

  /** The file system the wrapper sees: the configuration directory and file. */
  class ConfigStore {
    var dirExists: bool
    var file: FileState

    function State(): Disk
      reads this
    {
      Disk(dirExists, file)
    }

    ghost predicate Valid()
      reads this
    {
      Consistent(State())
    }

    constructor (dirExists: bool, file: FileState)
      requires Consistent(Disk(dirExists, file))
      ensures State() == Disk(dirExists, file)
      ensures Valid()
    {
      this.dirExists := dirExists;
      this.file := file;
    }

    /** `get_config_dir`: creates the directory (and its parents) if it is missing. */
    method EnsureConfigDir()
      modifies this
      ensures dirExists && file == old(file)
    {
      dirExists := true;
    }

    /** `save_config`: makes sure the directory exists and overwrites the file with `config`. */
    method SaveConfig(config: map<string, string>)
      modifies this
      ensures State() == Disk(true, Stored(config))
      ensures LoadConfig(file) == config
    {
      EnsureConfigDir();
      file := Stored(config);
    }

    /** `handle_config_command`; an exit through `sys.exit` becomes a return carrying its code. */
    method HandleConfigCommand(args: seq<string>) returns (code: int, report: Report)
      requires Valid()
      modifies this
      ensures Valid()
      ensures State() == ConfigStep(old(State()), args).disk
      ensures report == ConfigStep(old(State()), args).report
      ensures code == ConfigStep(old(State()), args).code
    {
      if |args| == 0 || args[0] == "show" {
        var currentUrl := GetIndexUrl(file);
        report := Showed(currentUrl, currentUrl == DefaultIndexUrl);
      } else if args[0] == "set" {
        if |args| < 2 {
          return 1, SetUsage;
        }
        var newUrl := args[1];
        if !(StartsWith(newUrl, "http://") || StartsWith(newUrl, "https://")) {
          return 1, InvalidUrl(newUrl);
        }
        var config := LoadConfig(file);
        config := config[IndexUrlKey := newUrl];
        SaveConfig(config);
        report := Updated(newUrl);
      } else if args[0] == "reset" {
        var existed := !file.Absent?;
        if existed {
          file := Absent;
        }
        report := ResetDone(existed);
      } else {
        return 1, UnknownSubcommand(args[0]);
      }
      code := 0;
    }
  }

  /** Loading what was saved gives it back. */
  lemma SaveLoadRoundTrip(config: map<string, string>)
    ensures LoadConfig(Stored(config)) == config
  {
  }

  /** Loading never fails: a missing or unreadable file reads as the default mapping. */
  lemma LoadFailsOpen(f: FileState)
    requires !f.Stored?
    ensures LoadConfig(f) == DefaultConfig()
    ensures GetIndexUrl(f) == DefaultIndexUrl
  {
  }

  /** A readable file without `index_url` still resolves to the default URL. */
  lemma MissingKeyResolvesToDefault(m: map<string, string>)
    requires IndexUrlKey !in m
    ensures GetIndexUrl(Stored(m)) == DefaultIndexUrl
  {
  }

  /** `config` and `config show` change nothing, exit 0 and report "default" exactly when the resolved URL is the default. */
  lemma ShowReportsOrigin(d: Disk, args: seq<string>)
    requires IsShow(args)
    ensures var r := ConfigStep(d, args);
      && r.code == 0 && r.disk == d
      && r.report == Showed(GetIndexUrl(d.file), GetIndexUrl(d.file) == DefaultIndexUrl)
      && (r.report.isDefault <==> r.report.url == DefaultIndexUrl)
  {
  }

  /** In a fresh environment `show` reports the built-in default. */
  lemma FreshShowIsDefault(dirExists: bool)
    ensures ConfigStep(Disk(dirExists, Absent), ["show"]).report == Showed(DefaultIndexUrl, true)
    ensures ConfigStep(Disk(dirExists, Corrupt), []).report == Showed(DefaultIndexUrl, true)
  {
  }

  /** `config set` without a URL, or with one lacking an http(s) scheme, exits 1 and writes nothing. */
  lemma SetRejected(d: Disk, args: seq<string>)
    requires |args| >= 1 && args[0] == "set"
    requires |args| < 2 || !HasHttpScheme(args[1])
    ensures ConfigStep(d, args).code == 1
    ensures ConfigStep(d, args).disk == d
    ensures ConfigStep(d, args).report == if |args| < 2 then SetUsage else InvalidUrl(args[1])
  {
  }

  /** After an accepted `config set u`, the resolved URL is `u` and `show` reports it. */
  lemma SetThenGet(d: Disk, url: string, rest: seq<string>)
    requires HasHttpScheme(url)
    ensures var after := ConfigStep(d, ["set", url] + rest);
      && after.code == 0
      && after.report == Updated(url)
      && GetIndexUrl(after.disk.file) == url
      && ConfigStep(after.disk, ["show"]).report == Showed(url, url == DefaultIndexUrl)
  {
  }

  /** An accepted `config set` changes only the `index_url` entry of the mapping loaded before it. */
  lemma SetKeepsOtherKeys(d: Disk, url: string)
    requires HasHttpScheme(url)
    ensures var m := LoadConfig(ConfigStep(d, ["set", url]).disk.file);
      && m.Keys == LoadConfig(d.file).Keys + {IndexUrlKey}
      && forall k :: k in LoadConfig(d.file) && k != IndexUrlKey ==> m[k] == LoadConfig(d.file)[k]
  {
  }

  /** `config reset` always exits 0, leaves no file, and the resolved URL is then the default. */
  lemma ResetRestoresDefault(d: Disk, rest: seq<string>)
    ensures var after := ConfigStep(d, ["reset"] + rest);
      && after.code == 0
      && after.disk == Disk(d.dirExists, Absent)
      && after.report == ResetDone(!d.file.Absent?)
      && GetIndexUrl(after.disk.file) == DefaultIndexUrl
  {
  }

  /** A second `config reset` changes nothing more and still succeeds, reporting that no file was there. */
  lemma ResetIdempotent(d: Disk)
    ensures var once := ConfigStep(d, ["reset"]);
      var twice := ConfigStep(once.disk, ["reset"]);
      && twice.disk == once.disk
      && twice.code == 0
      && twice.report == ResetDone(false)
  {
  }

  /** Any other sub-command exits 1 and changes nothing. */
  lemma UnknownSubcommandRejected(d: Disk, args: seq<string>)
    requires |args| >= 1 && args[0] != "show" && args[0] != "set" && args[0] != "reset"
    ensures ConfigStep(d, args) == Step(d, UnknownSubcommand(args[0]), 1)
  {
  }
}
