# tcpdump service supervisor, modelled in Dafny

`tcpdump_service.py` is a small supervisor. At start-up it reads a
`[settings]` section: a comma list of network interfaces, an output
directory, the path of the capture tool, two rotation integers and a comma
list of extra arguments. It then runs one capture process per interface,
each with its standard error appended to a log file. Its core has three
parts:

- `start_all` and the module-level dict `processes` it fills, mapping each
  interface to the pair (child, open stderr log);
- a monitor loop that polls every child and restarts any that exited;
- `stop_all`, which terminates every child (escalating to `kill` after a
  timeout), closes every log and clears the dict.

The project models that core in six modules:

- `Wrappers` (`wrappers.dfy`): the `Option` type.
- `CommaList` (`comma_list.dfy`): the comprehension `[x.strip() for x in s.split(",") if x.strip()]` used for both lists.
  - `Split` is proved against `Join`, its inverse.
  - `Strip` is proved against Python's whitespace set.
  - `ParseList` gets a round trip, a split law over a comma, and an exact characterisation of when it is empty.
- `Decimal` (`decimal.dfy`): `str(n)` for the two integers in the argument vector, with an independent decimal reader that inverts it.
- `Command` (`command.dfy`):
  - the settings and their defaults;
  - the pathlib join used for the capture and log files;
  - `build_cmd`, specified element by element.
- `Registry` (`registry.dfy`): the state as values, with one pure function per state-changing operation and the lemmas about them.
  - State: the registry `processes` together with its iteration order, and a host table listing every child ever spawned and every file ever opened.
  - Operations: `start_all`, one pass of the monitor loop, `stop_all`.
  - Properties proved:
    - the registry invariant `Valid` (every entry is a live child running its own command, with an open log; no two entries share a handle) is preserved (by a monitor pass only when it returns normally);
    - what happens to each entry;
    - what happens when `open` or `Popen` raises;
    - that handles no entry refers to are untouched.
- `Supervisor` (`supervisor.dfy`): the service as a class.
  - Its fields are the registry map, the key order and the host table.
  - Each method runs the source's loop statement by statement.
  - Each method is proved to reach exactly the state that the `Registry` function prescribes.

The operating system enters only as parameters:

- `exited: set<string>` is the set of interfaces whose `poll()` returns an exit status.
- `fault: Option<Fault>` says at which loop position `open` or `Popen` raises, if anywhere.
- `script: string -> StopScript` gives, for each interface, what `terminate()`, the two `wait(timeout=5)` calls and `kill()` do during `stop_all`.

Children and sinks are positions in the host table, so "fresh" means past the old end of the table. A sink's `closeCalls` counts `close()` calls, so "closed exactly once" can be stated. A child's `terminateSent` and `killSent` record that `terminate()` and `kill()` were called.

When `start_all` meets an interface that is already registered (the same name configured twice, or `start_all` called again), `processes[iface] = (p, f_err)` at line 63 drops the last reference to the old pair. CPython's reference counting then finalizes the old file object, which closes it; the old child is not signalled and keeps running. `Registry.Release` models that close: it closes a sink that is still open and leaves a closed one alone. The assignment at line 124 drops a pair whose file was already closed at line 117, so it closes nothing more.

Lemmas whose names extend a listed lemma's name by a case (`…Spawns`, `…Raises`, `…Kept`, `…Earlier`, `…Older`, `…New`, `…Step`) are the cases of that lemma's induction and state the same property for one kind of iteration.

## Model

| member | source | states |
|---|---|---|
| CommaList.Strip | tcpdump_service.py:29 | `str.strip()`: the result has no leading or trailing whitespace and is the input minus an all-whitespace prefix and suffix |
| CommaList.Split | tcpdump_service.py:29 | `str.split(sep)`: at least one piece, no piece contains the separator, joining the pieces gives back the input |
| CommaList.StripNonEmpty | tcpdump_service.py:29 | the `if x.strip()` filter keeps only non-empty, stripped items and never lengthens the list |
| CommaList.ParseList | tcpdump_service.py:29 | every parsed list item is non-empty, stripped and free of commas |
| CommaList.StripIdempotent | tcpdump_service.py:29 | stripping twice is stripping once |
| CommaList.StripEmptyIff | tcpdump_service.py:29 | an item strips to the empty string iff it is all whitespace, i.e. exactly the items the filter drops |
| CommaList.StripStripped | tcpdump_service.py:29 | stripping an already stripped item changes nothing |
| CommaList.StripSubset | tcpdump_service.py:29 | stripping never introduces a character |
| CommaList.StripNonEmptyKeepsOut | tcpdump_service.py:29 | the filter keeps no piece containing a character none of its inputs contained |
| CommaList.SplitNoSep | tcpdump_service.py:29 | a string without the separator splits into itself alone |
| CommaList.SplitAround | tcpdump_service.py:29 | splitting `a + sep + b` is splitting `a` followed by splitting `b` |
| CommaList.SplitJoin | tcpdump_service.py:29 | splitting a join of separator-free pieces gives the pieces back (inverse of `Join`) |
| CommaList.StripNonEmptyAppend | tcpdump_service.py:29 | the filter distributes over concatenation |
| CommaList.StripNonEmptyClean | tcpdump_service.py:29 | the filter keeps a list of non-empty stripped items unchanged |
| CommaList.ParseListAround | tcpdump_service.py:29 | parsing `a + "," + b` is parsing `a` followed by parsing `b` |
| CommaList.ParseListSingle | tcpdump_service.py:29 | a comma-free setting is either blank (no items) or the one stripped item |
| CommaList.ParseListEmpty | tcpdump_service.py:29 | a missing key (default `""`) gives the empty list |
| CommaList.BlankAround | tcpdump_service.py:29 | a setting made only of commas and whitespace splits into two such parts at a comma, and conversely |
| CommaList.ParseListEmptyIff | tcpdump_service.py:29 | the parsed list is empty iff the setting consists of commas and whitespace only |
| CommaList.ParseListJoin | tcpdump_service.py:29 | round trip: writing well-formed items comma-separated and parsing them gives them back |
| Command.Get | tcpdump_service.py:29-34 | `section.get(key, default)` is the stored value when the key is present and the default otherwise |
| Command.LoadSettings | tcpdump_service.py:29-34 | each setting is the section's value when the key is present and its documented default otherwise (`""` for both lists, `/var/log/tcpdump`, `/usr/bin/tcpdump`, 100, 20); a present list is the parsed comma list of its value; both lists consist of non-empty, stripped, comma-free items |
| Decimal.NatToString | tcpdump_service.py:50-51 | `str(n)` for `n >= 0` is at least one digit with no leading zero except for `0` |
| Decimal.IntToString | tcpdump_service.py:50-51 | `str(n)` starts with a minus sign exactly when `n < 0`, followed by digits; a leading `0` occurs only in `"0"` itself, and never right after the minus sign |
| Decimal.NatToStringValue | tcpdump_service.py:50-51 | the digits written for `n` have the value `n` |
| Decimal.NegativeRoundTrip | tcpdump_service.py:50-51 | reading a minus sign followed by the digits of `m` gives `-m` |
| Decimal.NonNegativeRoundTrip | tcpdump_service.py:50-51 | reading the digits of `m` gives `m` |
| Decimal.IntToStringRoundTrip | tcpdump_service.py:50-51 | reading back `str(n)` gives `n` |
| Decimal.IntToStringInjective | tcpdump_service.py:50-51 | distinct rotation settings are written differently |
| Command.BuildCmd | tcpdump_service.py:42-54 | the argument vector has length 11 plus the extra arguments: the tool path, `-i iface`, `-s 0`, `-w` and the capture file, `-C` and `-W` each followed by `str()` of the configured integer (which reads back as that integer), then the extra arguments unchanged and in order |
| Command.JoinPathSuffix | tcpdump_service.py:44 | `str(Path(dir) / name)` ends with `name`, and is `name` itself when `name` is absolute |
| Command.FileSuffixes | tcpdump_service.py:44 | the capture file ends with `<iface>.pcap` and the log of line 60 with `<iface>.stderr.log`, whatever the directory |
| Command.OutputFileForm | tcpdump_service.py:44 | for an ordinary directory and a relative name the capture file is `<dir>/<iface>.pcap` |
| Command.JoinRelative | tcpdump_service.py:44 | a relative file name is appended to the directory's prefix |
| Command.OutputFileInjective | tcpdump_service.py:44 | two relative interfaces share a capture file only if they are the same interface |
| Command.LogFileNotOutputFile | tcpdump_service.py:44 | no interface's stderr log (line 60) coincides with any interface's capture file, for every directory and every pair of interface names |
| Registry.OpenSink | tcpdump_service.py:61 | `open(..., "ab")` adds one open sink on the given path after all existing ones and changes nothing else |
| Registry.Spawn | tcpdump_service.py:62 | `Popen` adds one running, unsignalled child with the given command and stderr sink and changes nothing else |
| Registry.CloseSink | tcpdump_service.py:81 | `close()` counts one more close on that sink and changes nothing else |
| Registry.Reap | tcpdump_service.py:113 | a status from `poll()`/`wait()` marks that child exited and changes nothing else |
| Registry.Terminate | tcpdump_service.py:71 | `terminate()` marks that child signalled; no other child and no sink changes |
| Registry.Kill | tcpdump_service.py:75 | `kill()` marks that child killed; no other child and no sink changes |
| Registry.Release | tcpdump_service.py:63 | finalizing a dropped file object closes it if it is still open and leaves a closed one as it is; no child and no other sink changes |
| Registry.EmptyValid | tcpdump_service.py:39 | the empty dict satisfies the registry invariant |
| Registry.ExtendsValid | tcpdump_service.py:61-62 | adding handles to the host table keeps the registry invariant |
| Registry.ReplaceValid | tcpdump_service.py:63 | replacing a registered interface's pair by a fresh live one keeps the registry invariant, whatever happened to the old pair's handles |
| Registry.AssignFacts | tcpdump_service.py:63 | `processes[iface] = (p, f_err)`: the keys gain `iface`, which maps to the new pair; other entries are unchanged; a new key goes to the end of the order and an existing one keeps its place; the replaced pair's sink is closed and every other sink and every child is unchanged |
| Registry.AssignSink | tcpdump_service.py:63 | the assignment changes sink `i` only when `i` is the replaced pair's sink and still open, and then closes it once |
| Registry.Launch | tcpdump_service.py:61-62 | `open` then `Popen`: one new open sink on the interface's log and one new running child with the interface's command writing to it, after all existing handles, which are unchanged |
| Registry.LaunchExtends | tcpdump_service.py:61-62 | `open` then `Popen` only add to the host table |
| Registry.StartStepFacts | tcpdump_service.py:58-63 | an iteration returns normally iff the loop is still running and neither `open` nor `Popen` raises; then its interface joins the keys, otherwise the keys stay; after an exception the iteration does nothing |
| Registry.StartShape | tcpdump_service.py:57-64 | after `n` iterations: normal return exactly when no fault was reached; one child per interface started, one sink per interface started plus the leaked one when `Popen` raised |
| Registry.StartedSpawns | tcpdump_service.py:57-63 | an iteration runs to its end only if every earlier iteration did |
| Registry.StartStepSpawns | tcpdump_service.py:58-63 | an iteration that runs to its end registers its interface with the pair at the current ends of the tables and returns normally |
| Registry.StartStepState | tcpdump_service.py:58-63 | an iteration that runs to its end is a launch followed by the assignment of line 63 |
| Registry.StartStepRaises | tcpdump_service.py:58-63 | an iteration that raises leaves the registry and its order as they were and only adds handles |
| Registry.StartInRange | tcpdump_service.py:57-64 | every entry's handles stay inside the host table during `start_all` |
| Registry.StartOwner | tcpdump_service.py:63 | an entry after `n` iterations is the pair of its interface's last started occurrence, or its entry from before `start_all` |
| Registry.StartSinkStep | tcpdump_service.py:61-63 | one completed iteration keeps an earlier started child as it was, and closes its sink exactly when the iteration re-registers the same interface |
| Registry.LaunchSpawnedAt | tcpdump_service.py:61-63 | the iteration's own child and open sink sit at the ends of the tables it started from |
| Registry.StartSpawned | tcpdump_service.py:61-63 | the `k`-th started interface got a fresh child running its command, writing to a fresh sink on its log; that sink is still open iff no later iteration replaced the entry |
| Registry.StartLeak | tcpdump_service.py:61-62 | when `Popen` raises, the log opened just before stays open |
| Registry.StartKeys | tcpdump_service.py:63 | the keys afterwards are the old keys plus the interfaces started before any exception |
| Registry.StartUntouched | tcpdump_service.py:63 | a name not started keeps its earlier entry |
| Registry.StartLast | tcpdump_service.py:63 | a name configured several times maps to the unit of its last occurrence |
| Registry.StartValid | tcpdump_service.py:57-64 | `start_all` preserves the registry invariant, whether or not it raises |
| Registry.FreshAssignValid | tcpdump_service.py:61-63 | registering a fresh live pair under a new interface keeps the registry invariant |
| Registry.StartAllFacts | tcpdump_service.py:57-64 | `start_all` keeps every earlier key, returns normally iff neither `open` nor `Popen` raises, and then registers every configured interface |
| Registry.StartStuck | tcpdump_service.py:57-64 | once an iteration raises, the rest of the loop does nothing |
| Registry.StartAllFromEmpty | tcpdump_service.py:57-64 | from an empty registry and no exception: the keys are exactly the configured interfaces, one child and one sink per configured position, each key mapped to the fresh unit of its last occurrence, and the invariant holds |
| Registry.StartAllOrphans | tcpdump_service.py:63 | an interface configured twice leaves the first child running and unsignalled, with no entry referring to it or its log; the log is closed exactly once, by the finalizer |
| Registry.StartAllFault | tcpdump_service.py:57-64 | when `open` or `Popen` raises at position `f`: the call raises and keeps the invariant, the keys are the interfaces before `f`, those children keep running, a sink opened before `f` is open iff no later occurrence of its interface before `f` replaced it, and a sink opened just before a failing `Popen` stays open and belongs to no entry |
| Registry.Retire | tcpdump_service.py:113-119 | the exited child is marked reaped and its sink closed once; nothing else changes |
| Registry.ValidKeyed | tcpdump_service.py:112 | the invariant makes every snapshot key a dict key |
| Registry.PositionOf | tcpdump_service.py:112 | every key occurs in the snapshot of `processes.items()` |
| Registry.MonitorStepFacts | tcpdump_service.py:112-125 | one iteration keeps the keys and their order; it leaves everything alone when the child is still running or an earlier restart raised; otherwise it raises iff the fault is at this position, and when it does not, the entry is the pair at the ends of the tables and no other entry changes |
| Registry.MonitorShape | tcpdump_service.py:112-125 | a pass keeps the key set and the iteration order, and returns normally exactly when no restart of an exited child raised |
| Registry.FateUnchanged | tcpdump_service.py:112-125 | an iteration that does not restart entry `k` leaves entry `k`'s fate unchanged |
| Registry.MonitorStepHost | tcpdump_service.py:116-123 | restarting one entry changes only that entry's old child (reaped) and sink (closed once), besides adding new handles |
| Registry.MonitorUnitSelf | tcpdump_service.py:116-124 | a restarted entry maps to a fresh child running the same command with a fresh open log, or keeps its dead unit when the restart raises |
| Registry.MonitorUnitOther | tcpdump_service.py:112-125 | restarting one entry does not disturb any other entry or its handles |
| Registry.MonitorUnitStep | tcpdump_service.py:112-125 | one iteration moves every entry from its fate before the iteration to its fate after it |
| Registry.MonitorUnit | tcpdump_service.py:112-125 | after `n` iterations each entry is kept, restarted or abandoned according to `exited` and the fault, with the matching handle facts |
| Registry.MonitorStuck | tcpdump_service.py:112-125 | once a restart raises, the rest of the pass does nothing |
| Registry.MonitorValid | tcpdump_service.py:112-125 | a pass that returns normally leaves the registry invariant intact |
| Registry.MonitorFrame | tcpdump_service.py:112-125 | handles no entry refers to are untouched by a pass |
| Registry.MonitorPassFacts | tcpdump_service.py:112-125 | a pass keeps the keys and the order. It returns normally iff no restart raised, and then the invariant holds. Entries whose child is still running are unchanged. Each restarted entry gets a fresh child running the same command, its old child reaped and its old sink closed exactly once. Handles no entry refers to are untouched |
| Registry.StopUnit | tcpdump_service.py:68-83 | stopping one unit: `terminate()` is sent; `kill()` is sent exactly when the first wait timed out after a successful `terminate()`; the child counts as exited exactly when a wait returned; the sink is closed once whatever raised; nothing else changes |
| Registry.ValidInRange | tcpdump_service.py:68 | under the invariant every unit's handles exist in the host table |
| Registry.StopPrefix | tcpdump_service.py:68-83 | the loop over `processes.items()` opens and spawns nothing: the host table keeps its size |
| Registry.StopUnitAt | tcpdump_service.py:68-83 | after `n` iterations the units at positions below `n` are stopped and the others are untouched |
| Registry.StopFrame | tcpdump_service.py:68-83 | handles no entry refers to are untouched by `stop_all` |
| Registry.StopAllFacts | tcpdump_service.py:67-84 | afterwards the registry is empty. Every registered child was sent `terminate()`, was sent `kill()` iff its first wait timed out after a successful `terminate()`, and has exited iff a wait returned. Every registered sink is closed exactly once. Nothing else changed |
| Supervisor.Service.constructor | tcpdump_service.py:39 | the service starts with `processes = {}` and a valid registry |
| Supervisor.Service.StartOne | tcpdump_service.py:58-63 | one loop iteration, performed call by call (including the finalizer's close of a replaced pair's log), ends in the state `Registry.StartStep` gives and raises exactly when it does |
| Supervisor.Service.StartLoop | tcpdump_service.py:57-64 | the loop ends in the state `Registry.StartAll` gives |
| Supervisor.Service.StartAll | tcpdump_service.py:57-64 | `start_all()` ends in the state `Registry.StartAll` gives, keeps the invariant and every earlier key, returns normally iff neither `open` nor `Popen` raises, and then every configured interface is registered |
| Supervisor.Service.Restart | tcpdump_service.py:116-124 | one restart, performed call by call, ends in the state `Registry.MonitorStep` gives |
| Supervisor.Service.MonitorLoop | tcpdump_service.py:112-125 | iterating over a snapshot of the dict ends in the state `Registry.MonitorPass` gives |
| Supervisor.Service.MonitorPass | tcpdump_service.py:112-125 | one monitor pass ends in the state `Registry.MonitorPass` gives, keeps the keys and their order, and keeps the invariant when it returns normally |
| Supervisor.Service.StopOne | tcpdump_service.py:69-83 | the terminate/wait/kill/wait/close sequence ends in the state `Registry.StopUnit` gives |
| Supervisor.Service.StopUnits | tcpdump_service.py:68-83 | the loop over `processes.items()` ends in the host state `Registry.StopAll` gives |
| Supervisor.Service.StopAll | tcpdump_service.py:67-84 | `stop_all()` ends in the state `Registry.StopAll` gives: every unit stopped, the dict empty and still valid |

## Left out

- Reading the configuration file (lines 18-27) is not modelled: `LoadSettings` starts from the section's strings. `getint` (lines 32-33) is not modelled either: its two results are parameters.
- `Command.JoinPath` models `str(Path(dir) / name)` only for a directory and a name already in pathlib's normal form (an interface name has no `/`). Path normalisation, such as collapsing `//`, dropping a `./` component or a trailing `/.`, is not modelled, so for names containing `/` the path lemmas speak of the model's join rather than pathlib's.
- Process creation, pids, signals and waiting are not modelled. The operating system's answers are parameters: `exited`, `fault` and `script`.
- `OUTPUT_DIR.mkdir` (line 37) and the start-up checks in `main` (lines 97-106) are not modelled. They are file-system effects and exits.
- Storing `handle_sig`'s signal handler and `sys.exit` (lines 87-95) are not modelled. A signal arriving while some other operation is half done is not modelled either, because the model has no concurrency; `stop_all` itself is modelled.
- The pauses `time.sleep(2)` and `time.sleep(1)` (lines 120, 126) are not modelled; they do not change the state.
- Every `print` is not modelled and is taken to return. A `print` that raises is not modelled: at line 70 it would send control to the `except`/`finally` before `terminate()`, and at lines 64, 115 and 125 it would end the loop.
- The endless `while True` of `main` (lines 110-128) is modelled as one pass, `MonitorPass`; repeated passes compose. An exception out of a restart is not caught (only `KeyboardInterrupt` is), so it ends the program. The model reports it as `ok == false` with the state reached.
- `close()` raising is not modelled separately. Every caller swallows its exception (lines 80-83, 116-119), so a close always counts as one close call.
- `Registry.Terminate` and `Registry.Kill` record that the signal was sent, even when `terminate()` or `kill()` raises. They say nothing about how the child reacts; only a returning `wait` or `poll` marks the child exited.
- Supervisor.Service.StartAll, Supervisor.Service.MonitorPass and Supervisor.Service.StopAll require the registry invariant `Valid()`, which the constructor establishes. `StartAll` and `StopAll` preserve it; `MonitorPass` preserves it only when it returns normally. After a restart that raises, the abandoned entry still names its reaped child and closed log, so the invariant no longer holds; the program then ends. Callers that build the registry by other means are not covered. `StartLoop`, `MonitorLoop` and `StopUnits` carry no such requirement.
- Registry.Release: garbage collection is modelled as CPython's immediate reference-counting finalization at the assignment. Another interpreter, or another reference to the file object, could delay or prevent the close.
- Registry.StartStep, Registry.StartPrefix, Registry.StartAll, Registry.MonitorStep, Registry.MonitorPrefix, Registry.MonitorPass and Registry.StopAll carry no `ensures` of their own. Their properties are the lemmas listed above (`StartStepFacts`, `StartAllFacts`, `MonitorStepFacts`, `MonitorShape`, `MonitorPassFacts`, `StopAllFacts` and the others).
