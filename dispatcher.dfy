/**
 The command-line entry point: with no arguments it fails with usage, with
 `config` it hands over to the configuration sub-command, and otherwise it
 builds a pip invocation with the resolved index URL and its trusted host
 injected, runs it, and relays its exit status.

 The interpreter path (`sys.executable`), the argument vector (`sys.argv`)
 and the outcome of the child process are parameters.
 */
module Dispatcher {
  import opened Strings
  import opened Config

  const SchemeSeparator: string := "//"
  const PathSeparator: string := "/"
  const IndexUrlFlag: string := "--index-url"
  const TrustedHostFlag: string := "--trusted-host"

  /** The text before the first `/`, Python's `rest.split("/")[0]`. */
  function HostPart(rest: string): (host: string)
    ensures '/' !in host
    ensures StartsWith(rest, host)
    ensures |host| < |rest| ==> rest[|host|] == '/'
  {
    var parts := Split(rest, PathSeparator);
    SplitPiecesLackSeparator(rest, PathSeparator);
    ContainsChar(parts[0], '/');
    BeforeFirstSlash(rest);
    parts[0]
  }

  /** The first piece of a split on `/` is the prefix up to the first `/`. */
  lemma BeforeFirstSlash(rest: string)
    ensures var host := Split(rest, PathSeparator)[0];
      && StartsWith(rest, host)
      && (|host| < |rest| ==> rest[|host|] == '/')
  {
  }

  /** The text after the last `//` found scanning left to right: Python's `url.split("//")[-1]`. */
  function AfterLastSeparator(url: string): (rest: string)
    ensures !Contains(rest, SchemeSeparator)
  {
    SplitPiecesLackSeparator(url, SchemeSeparator);
    Last(Split(url, SchemeSeparator))
  }

  /** The text after the first `//`, or the whole URL when there is none. */
  function AfterFirstSeparator(url: string): (rest: string)
    ensures !Contains(url, SchemeSeparator) ==> rest == url
    ensures Contains(url, SchemeSeparator) ==>
      && |rest| + 2 <= |url|
      && url[|url| - |rest|..] == rest
      && IndexOf(url, SchemeSeparator) == |url| - |rest| - 2
  {
    var i := IndexOf(url, SchemeSeparator);
    if i < 0 then url else url[i + 2..]
  }

  /** The trusted host exactly as line 120 of aetos.py derives it. */
  function TrustedHostAsWritten(url: string): (host: string)
    ensures '/' !in host
  {
    HostPart(AfterLastSeparator(url))
  }

  /** The trusted host as intended: the authority after the scheme, up to the first `/` of the path. */
  function TrustedHost(url: string): (host: string)
    ensures '/' !in host
    ensures !Contains(url, SchemeSeparator) ==> StartsWith(url, host)
  {
    HostPart(AfterFirstSeparator(url))
  }

  /** A `//` right after a prefix with no `//` that does not end in `/` is the first one. */
  lemma FirstSeparatorAfter(a: string, b: string)
    requires !Contains(a, SchemeSeparator)
    requires a == [] || a[|a| - 1] != '/'
    ensures IndexOf(a + SchemeSeparator + b, SchemeSeparator) == |a|
  {
    var s := a + SchemeSeparator + b;
    assert s[|a|..|a| + 2] == SchemeSeparator;
    forall j: nat | j < |a| ensures !OccursAt(s, SchemeSeparator, j) {
      if j + 2 <= |a| {
        assert s[j..j + 2] == a[j..j + 2];
        assert !OccursAt(a, SchemeSeparator, j);
      } else {
        assert s[j] == a[|a| - 1];
        assert s[j..j + 2][0] == s[j];
      }
    }
    IndexOfIs(s, SchemeSeparator, |a|);
  }

  /** A string without `/` holds no `//`. */
  lemma NoSlashNoSeparator(s: string)
    requires '/' !in s
    ensures !Contains(s, SchemeSeparator)
  {
    forall j: nat | j + 2 <= |s| ensures !OccursAt(s, SchemeSeparator, j) {
      assert s[j..j + 2][0] == s[j];
    }
  }

  /** The text after `scheme://` is what follows the first `//`. */
  lemma SchemeStripped(scheme: string, rest: string)
    requires '/' !in scheme
    ensures AfterFirstSeparator(scheme + "://" + rest) == rest
  {
    var a := scheme + ":";
    assert scheme + "://" + rest == a + SchemeSeparator + rest;
    NoSlashNoSeparator(a);
    FirstSeparatorAfter(a, rest);
  }

  /** The host part of `host` + `path` is `host` when the path is empty or starts with `/`. */
  lemma HostBeforePath(host: string, path: string)
    requires '/' !in host
    requires path == [] || path[0] == '/'
    ensures HostPart(host + path) == host
  {
    var rest := host + path;
    var h := HostPart(rest);
    assert h == rest[..|host|];
  }

  /** For `scheme://host/path`, the intended trusted host is `host`, whatever the path holds. */
  lemma TrustedHostOfUrl(scheme: string, host: string, path: string)
    requires '/' !in scheme && '/' !in host
    requires path == [] || path[0] == '/'
    ensures TrustedHost(scheme + "://" + host + path) == host
  {
    assert scheme + "://" + host + path == scheme + "://" + (host + path);
    SchemeStripped(scheme, host + path);
    HostBeforePath(host, path);
  }

  /** When no second `//` follows the first one, the code's derivation and the intended one agree. */
  lemma TrustedHostAgrees(url: string)
    requires !Contains(AfterFirstSeparator(url), SchemeSeparator)
    ensures TrustedHostAsWritten(url) == TrustedHost(url)
  {
    var i := IndexOf(url, SchemeSeparator);
    if i >= 0 {
      SplitWithoutSeparator(url[i + 2..], SchemeSeparator);
      assert Split(url, SchemeSeparator) == [url[..i], url[i + 2..]];
    } else {
      SplitWithoutSeparator(url, SchemeSeparator);
    }
  }

  /** A string whose only `/` is one in the middle holds no `//`. */
  lemma OneSlashNoSeparator(x: string, y: string)
    requires '/' !in x && '/' !in y
    ensures !Contains(x + "/" + y, SchemeSeparator)
  {
    var s := x + "/" + y;
    forall j: nat | j + 2 <= |s| ensures !OccursAt(s, SchemeSeparator, j) {
      assert s[j..j + 2][0] == s[j] && s[j..j + 2][1] == s[j + 1];
      if j < |x| {
        assert s[j] == x[j];
      } else if j == |x| {
        assert s[j + 1] == y[0];
      } else {
        assert s[j] == y[j - |x| - 1];
      }
    }
  }

  /** A string with no two `/` side by side holds no `//`. */
  lemma NoAdjacentSlashes(s: string)
    requires forall j :: 0 <= j < |s| - 1 ==> s[j] != '/' || s[j + 1] != '/'
    ensures !Contains(s, SchemeSeparator)
  {
    forall j: nat | j + 2 <= |s| ensures !OccursAt(s, SchemeSeparator, j) {
      assert s[j..j + 2][0] == s[j] && s[j..j + 2][1] == s[j + 1];
    }
  }

  /** For `scheme://rest` with no `//` in `rest`, both derivations give the host part of `rest`. */
  lemma SingleSeparatorHost(scheme: string, host: string, path: string)
    requires '/' !in scheme && '/' !in host
    requires path == [] || path[0] == '/'
    requires !Contains(host + path, SchemeSeparator)
    ensures TrustedHostAsWritten(scheme + "://" + host + path) == host
    ensures TrustedHost(scheme + "://" + host + path) == host
  {
    var url := scheme + "://" + host + path;
    assert url == scheme + "://" + (host + path);
    SchemeStripped(scheme, host + path);
    TrustedHostAgrees(url);
    TrustedHostOfUrl(scheme, host, path);
  }

  /** A leading piece before the first `//` does not change the last piece of the split. */
  lemma LastPieceAfterFirst(a: string, b: string)
    requires !Contains(a, SchemeSeparator)
    requires a == [] || a[|a| - 1] != '/'
    ensures Last(Split(a + SchemeSeparator + b, SchemeSeparator)) == Last(Split(b, SchemeSeparator))
  {
    FirstSeparatorAfter(a, b);
    SplitAtFirst(a, b, SchemeSeparator);
  }

  /** A URL whose path ends in a doubled `/` gets an empty trusted host from the code's derivation. */
  lemma TrailingDoubleSlashAsWritten(scheme: string, mid: string)
    requires '/' !in scheme
    requires !Contains(mid, SchemeSeparator)
    requires mid == [] || mid[|mid| - 1] != '/'
    ensures TrustedHostAsWritten(scheme + "://" + mid + "//") == ""
  {
    var a := scheme + ":";
    var tail := mid + SchemeSeparator;
    assert scheme + "://" + mid + "//" == a + SchemeSeparator + tail;
    NoSlashNoSeparator(a);
    LastPieceAfterFirst(a, tail);
    assert tail == mid + SchemeSeparator + [];
    LastPieceAfterFirst(mid, []);
    assert Split([], SchemeSeparator) == [[]];
  }

  /** The concrete input, a mirror URL typed with a doubled trailing slash: the code's derivation gives an empty host. */
  lemma DoubleSlashPathYieldsEmptyHost(url: string)
    requires url == "https://mirror.example/simple//"
    ensures TrustedHostAsWritten(url) == ""
  {
    DoubledSlashUrlParts(url);
    OneSlashNoSeparator("mirror.example", "simple");
    TrailingDoubleSlashAsWritten("https", "mirror.example" + "/" + "simple");
  }

  /** On the same input the intended derivation keeps the host. */
  lemma DoubleSlashPathKeepsHost(url: string)
    requires url == "https://mirror.example/simple//"
    ensures TrustedHost(url) == "mirror.example"
  {
    DoubledSlashUrlParts(url);
    TrustedHostOfUrl("https", "mirror.example", "/simple//");
  }

  /** The pieces that URL is made of. */
  lemma DoubledSlashUrlParts(url: string)
    requires url == "https://mirror.example/simple//"
    ensures url == "https" + "://" + ("mirror.example" + "/" + "simple") + "//"
    ensures url == "https" + "://" + "mirror.example" + "/simple//"
    ensures var mid := "mirror.example" + "/" + "simple"; mid[|mid| - 1] != '/'
  {
  }

  /** Python's `xs.index(x)`, or -1 where Python raises `ValueError`. */
  function PositionOf(xs: seq<string>, x: string): (r: int)
    ensures r < 0 <==> x !in xs
    ensures r >= 0 ==> r < |xs| && xs[r] == x && x !in xs[..r]
  {
    if |xs| == 0 then -1
    else if xs[0] == x then 0
    else
      var k := PositionOf(xs[1..], x);
      assert k >= 0 ==> xs[..k + 1] == [xs[0]] + xs[1..][..k];
      if k < 0 then -1 else k + 1
  }

  /** The first occurrence is the position holding `x` with no `x` before it. */
  lemma PositionOfIs(xs: seq<string>, x: string, k: nat)
    requires k < |xs| && xs[k] == x && x !in xs[..k]
    ensures PositionOf(xs, x) == k
  {
  }

  /** The delegated invocation `python -m pip <verb> --index-url <url> --trusted-host <host> <args...>`. */
  function PipCommand(python: string, verb: string, url: string, args: seq<string>): (cmd: seq<string>)
    ensures |cmd| == 8 + |args|
    ensures cmd[..4] == [python, "-m", "pip", verb]
    ensures cmd[4..8] == [IndexUrlFlag, url, TrustedHostFlag, TrustedHostAsWritten(url)]
    ensures cmd[8..] == args
  {
    [python, "-m", "pip", verb, IndexUrlFlag, url, TrustedHostFlag, TrustedHostAsWritten(url)] + args
  }

  /**
   Looking the flags up as the source's tests do finds each one followed by its value, and the
   passthrough arguments close the list. The host is the code's derivation; it is the intended
   authority whenever no second `//` follows the first.
   */
  lemma FlagsFollowedByValues(python: string, verb: string, url: string, args: seq<string>)
    requires python != IndexUrlFlag && verb != IndexUrlFlag
    requires python != TrustedHostFlag && verb != TrustedHostFlag && url != TrustedHostFlag
    ensures var cmd := PipCommand(python, verb, url, args);
      && PositionOf(cmd, IndexUrlFlag) == 4 && cmd[5] == url
      && PositionOf(cmd, TrustedHostFlag) == 6 && cmd[7] == TrustedHostAsWritten(url)
      && (!Contains(AfterFirstSeparator(url), SchemeSeparator) ==> cmd[7] == TrustedHost(url))
      && forall k :: 0 <= k < |args| ==> cmd[|cmd| - |args| + k] == args[k]
  {
    FlagPositions(python, verb, url, TrustedHostAsWritten(url), args);
    if !Contains(AfterFirstSeparator(url), SchemeSeparator) {
      TrustedHostAgrees(url);
    }
  }

  /** The flag positions in an argument list of that shape, for any host value. */
  lemma FlagPositions(python: string, verb: string, url: string, host: string, args: seq<string>)
    requires python != IndexUrlFlag && verb != IndexUrlFlag
    requires python != TrustedHostFlag && verb != TrustedHostFlag && url != TrustedHostFlag
    ensures var cmd := [python, "-m", "pip", verb, IndexUrlFlag, url, TrustedHostFlag, host] + args;
      PositionOf(cmd, IndexUrlFlag) == 4 && PositionOf(cmd, TrustedHostFlag) == 6
  {
    var cmd := [python, "-m", "pip", verb, IndexUrlFlag, url, TrustedHostFlag, host] + args;
    assert cmd[..4] == [python, "-m", "pip", verb];
    assert IndexUrlFlag != "-m" && IndexUrlFlag != "pip";
    PositionOfIs(cmd, IndexUrlFlag, 4);
    assert cmd[..6] == [python, "-m", "pip", verb, IndexUrlFlag, url];
    assert TrustedHostFlag != "-m" && TrustedHostFlag != "pip" && TrustedHostFlag != IndexUrlFlag;
    PositionOfIs(cmd, TrustedHostFlag, 6);
  }

  /**
   After an accepted `config set u`, every delegated command carries `u` and the host the code
   derives from it, which is `u`'s authority when no second `//` follows the first.
   */
  lemma SetThenDelegate(d: Disk, url: string, python: string, verb: string, args: seq<string>)
    requires HasHttpScheme(url)
    ensures var after := ConfigStep(d, ["set", url]);
      var cmd := PipCommand(python, verb, GetIndexUrl(after.disk.file), args);
      && cmd == [python, "-m", "pip", verb, IndexUrlFlag, url, TrustedHostFlag, TrustedHostAsWritten(url)] + args
      && (!Contains(AfterFirstSeparator(url), SchemeSeparator) ==> cmd[7] == TrustedHost(url))
  {
    if !Contains(AfterFirstSeparator(url), SchemeSeparator) {
      TrustedHostAgrees(url);
    }
  }

  /** The scenario of a custom mirror: `config set https://mirror.example/simple/`, then `install requests`. */
  lemma CustomMirrorInstall(d: Disk, python: string, url: string)
    requires url == "https://mirror.example/simple/"
    ensures var after := ConfigStep(d, ["set", url]);
      PipCommand(python, "install", GetIndexUrl(after.disk.file), ["requests"])
        == [python, "-m", "pip", "install", IndexUrlFlag, url, TrustedHostFlag, "mirror.example", "requests"]
  {
    CustomMirrorHost(url);
    SetThenDelegate(d, url, python, "install", ["requests"]);
  }

  /** The mirror URL of that scenario passes the scheme check and has host `mirror.example`. */
  lemma CustomMirrorHost(url: string)
    requires url == "https://mirror.example/simple/"
    ensures HasHttpScheme(url)
    ensures TrustedHostAsWritten(url) == "mirror.example" && TrustedHost(url) == "mirror.example"
  {
    assert url[..8] == "https://";
    assert url == "https" + "://" + "mirror.example" + "/simple/";
    NoAdjacentSlashes("mirror.example" + "/simple/");
    SingleSeparatorHost("https", "mirror.example", "/simple/");
  }

  /** The built-in index gets `nexus.uclv.edu.cu` as its trusted host, under either derivation. */
  lemma DefaultUrlHost(url: string)
    requires url == DefaultIndexUrl
    ensures TrustedHostAsWritten(url) == "nexus.uclv.edu.cu" && TrustedHost(url) == "nexus.uclv.edu.cu"
  {
    var host, path := "nexus.uclv.edu.cu", "/repository/pypi.org/";
    DefaultUrlParts(url, host, path);
    DefaultUrlRest(host + path);
    SingleSeparatorHost("https", host, path);
  }

  /** The built-in index as scheme, host and path. */
  lemma DefaultUrlParts(url: string, host: string, path: string)
    requires url == DefaultIndexUrl
    requires host == "nexus.uclv.edu.cu" && path == "/repository/pypi.org/"
    ensures url == "https" + "://" + host + path
    ensures host + path == "nexus.uclv.edu.cu/repository/pypi.org/"
  {
  }

  /** The part of the built-in index after its scheme holds no `//`. */
  lemma DefaultUrlRest(rest: string)
    requires rest == "nexus.uclv.edu.cu/repository/pypi.org/"
    ensures !Contains(rest, SchemeSeparator)
  {
    NoAdjacentSlashes(rest);
  }

  /**
   A proxy URL that embeds the upstream index in its path: the code's derivation trusts the
   upstream host, not the proxy the request goes to.
   */
  lemma ProxyUrlTrustsUpstream(url: string)
    requires url == "https://proxy.example/https://pypi.org/simple/"
    ensures TrustedHostAsWritten(url) == "pypi.org"
    ensures TrustedHost(url) == "proxy.example"
  {
    ProxyAsWritten(url, "https:", "proxy.example/https:", "pypi.org/simple/");
    ProxyUrlPath(url);
    TrustedHostOfUrl("https", "proxy.example", "/https://pypi.org/simple/");
  }

  /** The code's derivation on that proxy URL, taken apart at its two `//`. */
  lemma ProxyAsWritten(url: string, a: string, inner: string, upstream: string)
    requires url == "https://proxy.example/https://pypi.org/simple/"
    requires a == "https:" && inner == "proxy.example/https:" && upstream == "pypi.org/simple/"
    ensures TrustedHostAsWritten(url) == "pypi.org"
  {
    ProxyUrlSplit(url, a, inner, upstream);
    NoSlashNoSeparator(a);
    ProxyInnerPiece(inner);
    UpstreamHost(upstream);
    SecondSeparatorAsWritten(a, inner, upstream);
  }

  /** With two `//` and no third, the code's derivation takes the host from the text after the second. */
  lemma SecondSeparatorAsWritten(a: string, inner: string, upstream: string)
    requires !Contains(a, SchemeSeparator) && (a == [] || a[|a| - 1] != '/')
    requires !Contains(inner, SchemeSeparator) && (inner == [] || inner[|inner| - 1] != '/')
    requires !Contains(upstream, SchemeSeparator)
    ensures TrustedHostAsWritten(a + SchemeSeparator + (inner + SchemeSeparator + upstream)) == HostPart(upstream)
  {
    LastPieceAfterFirst(a, inner + SchemeSeparator + upstream);
    LastPieceAfterFirst(inner, upstream);
    SplitWithoutSeparator(upstream, SchemeSeparator);
  }

  /** That proxy URL around its two `//`. */
  lemma ProxyUrlSplit(url: string, a: string, inner: string, upstream: string)
    requires url == "https://proxy.example/https://pypi.org/simple/"
    requires a == "https:" && inner == "proxy.example/https:" && upstream == "pypi.org/simple/"
    ensures url == a + SchemeSeparator + (inner + SchemeSeparator + upstream)
  {
  }

  /** That proxy URL as scheme, host and path. */
  lemma ProxyUrlPath(url: string)
    requires url == "https://proxy.example/https://pypi.org/simple/"
    ensures url == "https" + "://" + "proxy.example" + "/https://pypi.org/simple/"
  {
  }

  /** The piece between the two `//` holds none and does not end in `/`. */
  lemma ProxyInnerPiece(inner: string)
    requires inner == "proxy.example/https:"
    ensures !Contains(inner, SchemeSeparator) && inner[|inner| - 1] != '/'
  {
    assert inner == "proxy.example" + "/" + "https:";
    OneSlashNoSeparator("proxy.example", "https:");
  }

  /** The piece after the last `//` holds no `//`, and its host part is `pypi.org`. */
  lemma UpstreamHost(upstream: string)
    requires upstream == "pypi.org/simple/"
    ensures !Contains(upstream, SchemeSeparator)
    ensures HostPart(upstream) == "pypi.org"
  {
    assert upstream == "pypi.org" + "/simple/";
    NoAdjacentSlashes(upstream);
    HostBeforePath("pypi.org", "/simple/");
  }

  /** What the child process did, as far as the wrapper can observe it. */
  datatype ProcessOutcome =
    | Ran(returncode: int)
    | NotFound

  /** What `subprocess.run(..., check=True)` yields: a normal return or one of the two exceptions handled. */
  datatype RunResult =
    | Completed(returncode: int)
    | CalledProcessError(returncode: int)
    | FileNotFoundError

  /** `subprocess.run` with `check=True`: a non-zero return code is raised as `CalledProcessError`. */
  function RunChecked(outcome: ProcessOutcome): (r: RunResult)
    ensures r.Completed? ==> r.returncode == 0
    ensures r.CalledProcessError? ==> r.returncode != 0
    ensures r.FileNotFoundError? <==> outcome.NotFound?
    ensures !r.FileNotFoundError? ==> r.returncode == outcome.returncode
  {
    match outcome
    case Ran(code) => if code == 0 then Completed(code) else CalledProcessError(code)
    case NotFound => FileNotFoundError
  }

  /** The status `main` exits with after the child process. */
  function ExitStatus(r: RunResult): (code: int)
    ensures r.FileNotFoundError? ==> code == 1
    ensures !r.FileNotFoundError? ==> code == r.returncode
  {
    match r
    case Completed(code) => code
    case CalledProcessError(code) => code
    case FileNotFoundError => 1
  }

  /** The child's return code is relayed verbatim; a missing pip binary gives 1. */
  lemma ExitRelaysReturnCode(outcome: ProcessOutcome)
    ensures outcome.Ran? ==> ExitStatus(RunChecked(outcome)) == outcome.returncode
    ensures outcome.NotFound? ==> ExitStatus(RunChecked(outcome)) == 1
  {
  }

  /** Whether a pip invocation was launched, and with which argument list. */
  datatype Launch = NotLaunched | Launched(cmd: seq<string>)

  /** `main`: `argv` is the whole `sys.argv`, program name first. */
  method RunCli(store: ConfigStore, argv: seq<string>, python: string, outcome: ProcessOutcome)
    returns (code: int, launch: Launch)
    requires store.Valid()
    modifies store
    ensures store.Valid()
    ensures |argv| < 2 ==> code == 1 && launch == NotLaunched && store.State() == old(store.State())
    ensures |argv| >= 2 && argv[1] == "config" ==>
      && launch == NotLaunched
      && store.State() == ConfigStep(old(store.State()), argv[2..]).disk
      && code == ConfigStep(old(store.State()), argv[2..]).code
    ensures |argv| >= 2 && argv[1] != "config" ==>
      && store.State() == old(store.State())
      && launch == Launched(PipCommand(python, argv[1], GetIndexUrl(old(store.file)), argv[2..]))
      && code == ExitStatus(RunChecked(outcome))
  {
    if |argv| < 2 {
      return 1, NotLaunched;
    }
    var command := argv[1];
    if command == "config" {
      var configCode, _ := store.HandleConfigCommand(argv[2..]);
      return configCode, NotLaunched;
    }
    var indexUrl := GetIndexUrl(store.file);
    var args := argv[2..];
    var pipCmd := PipCommand(python, command, indexUrl, args);
    var result := RunChecked(outcome);
    code := ExitStatus(result);
    launch := Launched(pipCmd);
  }
}
