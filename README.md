# aetos in Dafny

aetos is a small command-line wrapper around pip. It keeps one preference, the
package index URL, in `~/.aetos/config.json`. It injects that URL and its host,
as `--index-url` and `--trusted-host`, into every pip command it runs. It then
passes pip's exit status back to the caller. A `config` sub-command shows, sets
and resets the preference.

This project models that logic (all of it lives in `aetos.py`) and proves its
behaviour:

- `strings.dfy`, module `Strings`: the Python string operations the wrapper
  uses. These are `startswith`, the leftmost search for a separator,
  `str.split(sep)` and `sep.join`. Split is proved to be undone by join, and
  no piece of a split contains the separator.
- `config.dfy`, module `Config`: the configuration store.
  - The file is abstracted to `FileState`: `Absent`, `Corrupt` (unreadable or
    not valid JSON) or `Stored(m)`.
  - `LoadConfig` and `GetIndexUrl` never fail: they fall back to the default.
  - `ConfigStep` is `handle_config_command` written as a function of the disk
    before the call.
  - Class `ConfigStore` holds the directory flag and the file. Its
    `SaveConfig` and `HandleConfigCommand` methods update them step by step,
    and each `sys.exit` becomes an early return carrying the exit code. The
    methods are proved against `ConfigStep`.
- `dispatcher.dfy`, module `Dispatcher`: `main`.
  - It derives the trusted host and builds the pip argument list.
  - It maps the child process outcome to an exit status. This follows
    `subprocess.run(..., check=True)`, where a non-zero return code is raised
    as `CalledProcessError`.
  - `RunCli` is `main` itself. It takes `sys.argv`, `sys.executable` and the
    child's outcome as parameters, and returns the exit status and the argument
    list it launched.

The trusted host differs between code and intent; see "## Findings". The model
keeps both derivations. `TrustedHostAsWritten` is the expression on
`aetos.py:120`, and `PipCommand` (so `RunCli`) puts it in the launched list, as
`main` does. `TrustedHost` is the authority the line means to extract.
`TrustedHostAgrees` proves the two are equal for every URL without another `//`
after the first one. That covers the default URL (`DefaultUrlHost`) and every
URL the repository's tests use; `FlagsFollowedByValues` and `SetThenDelegate`
state both the host the code launches and, under that condition, the intended
one.

## Model

| member | source | states |
|---|---|---|
| Strings.StartsWith | aetos.py:66 | `s.startswith(prefix)` holds exactly when `prefix` is no longer than `s` and agrees with it character by character |
| Strings.IndexOf | aetos.py:120 | the result is -1 exactly when the separator does not occur; otherwise the separator occurs there and nowhere earlier |
| Strings.Split | aetos.py:120 | a split always has at least one piece, so `[0]` and `[-1]` are defined |
| Strings.JoinSplit | aetos.py:120 | joining the pieces of `s.split(sep)` with `sep` gives `s` back |
| Strings.SplitPiecesLackSeparator | aetos.py:120 | no piece of `s.split(sep)` contains `sep` |
| Config.DefaultConfig | aetos.py:22-31 | the fallback mapping has the single key `index_url`, bound to `DEFAULT_INDEX_URL` |
| Config.HasHttpScheme | aetos.py:66 | an accepted URL is at least 7 characters long and starts with `http` followed by `://` or `s://` |
| Config.LoadConfig | aetos.py:22-31 | a loaded mapping lacks `index_url` only when it came from a readable file |
| Config.GetIndexUrl | aetos.py:41-44 | the resolved URL is the stored `index_url` when there is one, and otherwise the default |
| Config.LoadFailsOpen | aetos.py:22-31 | a missing or unreadable file loads as `{"index_url": DEFAULT_INDEX_URL}` and resolves to the default URL |
| Config.MissingKeyResolvesToDefault | aetos.py:41-44 | a readable mapping without `index_url` resolves to the default URL |
| Config.SaveLoadRoundTrip | aetos.py:22-38 | loading a saved mapping gives that mapping |
| Config.ConfigStore.EnsureConfigDir | aetos.py:16-19 | afterwards the directory exists, and the file is unchanged |
| Config.ConfigStore.SaveConfig | aetos.py:34-38 | afterwards the directory exists and the file holds exactly the given mapping, which loads back unchanged |
| Config.ConfigStep | aetos.py:47-85 | exit 0 exactly for show, reset and an accepted set, and exit 1 otherwise; an exit 1 leaves the disk unchanged; an accepted set leaves a stored file; the invariant "a file implies its directory" is kept |
| Config.ConfigStore.HandleConfigCommand | aetos.py:47-85 | given the directory invariant, it is kept, and the new directory and file, the report and the exit code are those of `ConfigStep` on the old state |
| Config.ShowReportsOrigin | aetos.py:49-55 | `config` and `config show` exit 0, change nothing, and report the resolved URL as default exactly when it equals the default |
| Config.FreshShowIsDefault | aetos.py:49-53 | with no file, or an unreadable one, show reports the default URL as default |
| Config.SetRejected | aetos.py:57-68 | `config set` without a URL, or with one not starting with `http://` or `https://`, exits 1 with the matching report and leaves the disk unchanged |
| Config.SetThenGet | aetos.py:70-74 | an accepted `config set u` exits 0; afterwards the resolved URL is `u` and show reports `u` |
| Config.SetKeepsOtherKeys | aetos.py:70-72 | an accepted set adds or replaces only `index_url` in the previously loaded mapping; every other key keeps its value |
| Config.ResetRestoresDefault | aetos.py:76-80 | `config reset` exits 0, leaves no file, reports whether a file existed, and the URL resolves to the default afterwards |
| Config.ResetIdempotent | aetos.py:76-80 | a second reset leaves the same disk, still exits 0, and reports that no file was there |
| Config.UnknownSubcommandRejected | aetos.py:82-85 | any other sub-command exits 1, reports its name and changes nothing |
| Dispatcher.HostPart | aetos.py:120 | `rest.split("/")[0]` is the longest prefix of `rest` without `/` |
| Dispatcher.AfterLastSeparator | aetos.py:120 | `url.split("//")[-1]` contains no `//` |
| Dispatcher.AfterFirstSeparator | aetos.py:120 | the text after the leftmost `//` is a suffix of the URL, with the leftmost `//` just before it; the whole URL when there is no `//` |
| Dispatcher.TrustedHostAsWritten | aetos.py:120 | the host derived as the code writes it contains no `/` |
| Dispatcher.TrustedHost | aetos.py:120 | the intended host contains no `/`; it is a prefix of a URL without `//` |
| Dispatcher.TrustedHostOfUrl | aetos.py:120 | for `scheme://host/path` with no `/` in the scheme or host, the trusted host is exactly `host`, whatever the path holds |
| Dispatcher.TrustedHostAgrees | aetos.py:120 | the code's derivation and the intended one give the same host whenever no second `//` follows the first |
| Dispatcher.TrailingDoubleSlashAsWritten | aetos.py:120 | the code's derivation gives an empty host for `scheme://` + `mid` + `//` whenever `mid` has no `//` and does not end in `/` |
| Dispatcher.DoubleSlashPathYieldsEmptyHost | aetos.py:120 | the code's derivation gives `""` for `https://mirror.example/simple//` |
| Dispatcher.DoubleSlashPathKeepsHost | aetos.py:120 | the intended derivation gives `mirror.example` for that URL |
| Dispatcher.SingleSeparatorHost | aetos.py:120 | for `scheme://host/path` with no `//` after the scheme, the code's derivation and the intended one both give exactly `host` |
| Dispatcher.SecondSeparatorAsWritten | aetos.py:120 | for a URL with exactly two `//`, the code's derivation takes the host from the text after the second one |
| Dispatcher.ProxyUrlTrustsUpstream | aetos.py:120 | for `https://proxy.example/https://pypi.org/simple/` the code trusts `pypi.org`, while the intended host is `proxy.example` |
| Dispatcher.DefaultUrlHost | tests/test_aetos.py:252-261 | the built-in index (aetos.py:11) gets trusted host `nexus.uclv.edu.cu` under line 120's derivation and under the intended one |
| Dispatcher.CustomMirrorHost | aetos.py:120 | `https://mirror.example/simple/` passes the scheme check and has trusted host `mirror.example` under either derivation |
| Dispatcher.PositionOf | tests/test_aetos.py:244-247 | Python's `list.index`: -1 exactly when the element is absent; otherwise the first position holding it |
| Dispatcher.PipCommand | aetos.py:117-121 | the argument list is `[python, -m, pip, verb]`, then `--index-url url --trusted-host host` with the host as line 120 derives it, then the passthrough arguments unchanged and in order |
| Dispatcher.FlagsFollowedByValues | aetos.py:117-121 | the first `--index-url` is at position 4 and is followed by the resolved URL; the first `--trusted-host` is followed by the host line 120 derives, which is the intended host when no second `//` follows the first; every passthrough argument sits at the end in its order |
| Dispatcher.SetThenDelegate | aetos.py:111-121 | after an accepted `config set u`, every delegated list carries `u` and the host line 120 derives from `u`, which is `u`'s authority when no second `//` follows the first |
| Dispatcher.CustomMirrorInstall | aetos.py:111-121 | after `config set https://mirror.example/simple/`, `install requests` becomes `python -m pip install --index-url https://mirror.example/simple/ --trusted-host mirror.example requests` |
| Dispatcher.RunChecked | aetos.py:127-128 | with `check=True` a normal return always has code 0; a non-zero code surfaces as `CalledProcessError` with that code; a missing binary is `FileNotFoundError` |
| Dispatcher.ExitStatus | aetos.py:127-135 | the exit status is the return code carried by a normal return or by `CalledProcessError`, and 1 for `FileNotFoundError` |
| Dispatcher.ExitRelaysReturnCode | aetos.py:127-135 | the child's return code becomes the exit status unchanged, whether zero or not; a missing pip gives exit 1 |
| Dispatcher.RunCli | aetos.py:88-135 | no arguments: exit 1, nothing launched, nothing changed. `config`: the state and exit code of `ConfigStep` on the rest of the arguments. Any other verb: nothing changed, the launched list is `PipCommand` of the resolved URL and the remaining arguments, with the host as line 120 derives it, and the exit status is the relayed one. The directory invariant is kept |

## Left out

- Running pip. `subprocess.run` is an external process, so its outcome is a parameter: `Ran(code)` or `NotFound`. In the model the outcome does not depend on the list launched.
- JSON encoding and decoding, `pathlib`, `mkdir` and `unlink`. These are foreign I/O. They are abstracted into `FileState` and the `dirExists` flag.
- Config.LoadConfig: only files holding a JSON object of strings to strings are modelled. A file holding other valid JSON (a list, or a non-string `index_url`) loads as that value in the source. There, `get_index_url` fails on a non-object or returns the non-string value.
- Config.LoadConfig: a file that cannot be decoded as text raises `UnicodeDecodeError`, which `load_config` does not catch. The model counts it as `Corrupt` and falls back to the default.
- Config.ConfigStep: `config reset` always exits 0 in the model. In the source, an `unlink` failure on the file (permission denied, or a directory at that path, which the model counts as `Corrupt`) propagates uncaught.
- Config.ConfigStore.SaveConfig: write failures (disk full, permission denied) propagate in the source and are not modelled.
- Printed messages, emoji, Spanish wording, the usage banner and the configuration path in messages are presentation only. The model reports an abstract `Report` value instead.
- `sys.argv`, `sys.executable`, `CONFIG_DIR` and `CONFIG_FILE` are parameters or the fixed store object, not globals.
- Dispatcher.ExitStatus: relays the integer as is. The operating system keeps only its low 8 bits, and a negative code from a signalled child maps to 256 minus the signal; neither is modelled.
- Concurrent invocations racing on the file are not modelled. The source has no locking.
- pip rejects `--index-url` on some of its own commands (`show`, `freeze`). That is pip's behaviour, not this wrapper's.

## Findings

| source | as written | input that shows it | evidently intended | confidence | as-written member | corrected member |
|---|---|---|---|---|---|---|
| aetos.py:120 | `index_url.split("//")[-1].split("/")[0]` keeps what follows the last `//`, so a `//` inside the path replaces the host | `https://mirror.example/simple//` (a doubled trailing slash) gives the trusted host `""`; a proxy URL `https://proxy.example/https://pypi.org/simple/` gives `pypi.org` (`ProxyUrlTrustsUpstream`) | the host after the scheme, `mirror.example`, as the comment on that line says | not executed; certain for the derivation, low impact because such URLs are unusual | Dispatcher.DoubleSlashPathYieldsEmptyHost | Dispatcher.TrustedHostOfUrl |
