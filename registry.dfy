/**
 The supervisor's state as values, and the three operations that change it
 (`start_all`, one pass of the monitor loop, `stop_all`) as pure functions of
 the old state and the outcomes the operating system reports.

 Child processes and stderr sinks are abstract handles: every process the
 supervisor ever spawned and every file it ever opened stays in a `Host`
 table, addressed by its position, so "fresh" means "at a position past the
 old end of the table". The registry maps an interface name to the positions
 of its current process and sink, like the module-level dict `processes`.
 */
module Registry {
  import opened Wrappers
  import opened Command

  /** A child spawned by `Popen`: its argument vector, the sink its stderr goes to, and what happened to it. */
  datatype Proc = Proc(cmd: seq<string>, stderr: nat, exited: bool, terminateSent: bool, killSent: bool)

  /** A file opened with `open(path, "ab")`; it is open until `close()` is first called on it. */
  datatype Sink = Sink(path: string, closeCalls: nat) {
    predicate IsOpen() {
      closeCalls == 0
    }
  }

  /** Every process spawned and every file opened, in allocation order. */
  datatype Host = Host(procs: seq<Proc>, sinks: seq<Sink>)

  /** A registry value: the pair `(p, f_err)`, as positions in the host table. */
  datatype Unit = Unit(proc: nat, sink: nat)

  /**
   The registry with its key order (a Python dict iterates in insertion
   order; reassigning an existing key keeps its place) and the host table.
   */
  datatype State = State(processes: map<string, Unit>, order: seq<string>, host: Host)

  /** A state after an operation, and whether the operation returned normally (`false`: it raised). */
  datatype Run = Run(state: State, ok: bool)

  /**
   What the supervisor spawns for each interface: the configured interfaces,
   the command (`build_cmd(name, OUTPUT_DIR)`) and the stderr log path
   (`OUTPUT_DIR / f"{name}.stderr.log"`). `PlanOf` builds it from the settings.
   */
  datatype Plan = Plan(interfaces: seq<string>, command: string -> seq<string>, logPath: string -> string)

  function PlanOf(cfg: Settings): Plan {
    Plan(cfg.interfaces, name => BuildCmd(cfg, name, cfg.outputDir), name => LogFile(cfg.outputDir, name))
  }

  /** Which of `open(...)` and `Popen(...)` raises, at which position of the loop. */
  datatype FaultKind = OpenFails | SpawnFails
  datatype Fault = Fault(at: nat, kind: FaultKind)

  /** The outcome of one `p.wait(timeout=5)`. */
  datatype WaitResult = Returned | TimedOut | WaitRaised

  /** What the operating system does when `stop_all` stops one unit. */
  datatype StopScript = StopScript(terminateRaises: bool, firstWait: WaitResult, killRaises: bool, secondWait: WaitResult)

  // ----- the host primitives -----

  /** `open(path, "ab")`: a new open sink at position `|h.sinks|`. */
  function OpenSink(h: Host, path: string): (r: Host)
    ensures r.procs == h.procs && |r.sinks| == |h.sinks| + 1
    ensures forall i :: 0 <= i < |h.sinks| ==> r.sinks[i] == h.sinks[i]
    ensures r.sinks[|h.sinks|] == Sink(path, 0)
  {
    h.(sinks := h.sinks + [Sink(path, 0)])
  }

  /** `Popen(cmd, stdout=DEVNULL, stderr=sink)`: a new running child at position `|h.procs|`. */
  function Spawn(h: Host, cmd: seq<string>, sink: nat): (r: Host)
    ensures r.sinks == h.sinks && |r.procs| == |h.procs| + 1
    ensures forall i :: 0 <= i < |h.procs| ==> r.procs[i] == h.procs[i]
    ensures r.procs[|h.procs|] == Proc(cmd, sink, false, false, false)
  {
    h.(procs := h.procs + [Proc(cmd, sink, false, false, false)])
  }

  /** `f.close()`; its exceptions are swallowed by every caller, so it always takes effect. */
  function CloseSink(h: Host, id: nat): (r: Host)
    ensures r.procs == h.procs && |r.sinks| == |h.sinks|
    ensures forall i :: 0 <= i < |h.sinks| && i != id ==> r.sinks[i] == h.sinks[i]
    ensures id < |h.sinks| ==> r.sinks[id] == h.sinks[id].(closeCalls := h.sinks[id].closeCalls + 1)
  {
    if id < |h.sinks| then h.(sinks := h.sinks[id := h.sinks[id].(closeCalls := h.sinks[id].closeCalls + 1)])
    else h
  }

  /** `poll()` or `wait()` has seen the child's exit status. */
  function Reap(h: Host, id: nat): (r: Host)
    ensures r.sinks == h.sinks && |r.procs| == |h.procs|
    ensures forall i :: 0 <= i < |h.procs| && i != id ==> r.procs[i] == h.procs[i]
    ensures id < |h.procs| ==> r.procs[id] == h.procs[id].(exited := true)
  {
    if id < |h.procs| then h.(procs := h.procs[id := h.procs[id].(exited := true)]) else h
  }

  /** `p.terminate()`: SIGTERM is sent to the child. */
  function Terminate(h: Host, id: nat): (r: Host)
    ensures r.sinks == h.sinks && |r.procs| == |h.procs|
    ensures forall i :: 0 <= i < |h.procs| && i != id ==> r.procs[i] == h.procs[i]
    ensures id < |h.procs| ==> r.procs[id] == h.procs[id].(terminateSent := true)
  {
    if id < |h.procs| then h.(procs := h.procs[id := h.procs[id].(terminateSent := true)]) else h
  }

  /** `p.kill()`: SIGKILL is sent to the child. */
  function Kill(h: Host, id: nat): (r: Host)
    ensures r.sinks == h.sinks && |r.procs| == |h.procs|
    ensures forall i :: 0 <= i < |h.procs| && i != id ==> r.procs[i] == h.procs[i]
    ensures id < |h.procs| ==> r.procs[id] == h.procs[id].(killSent := true)
  {
    if id < |h.procs| then h.(procs := h.procs[id := h.procs[id].(killSent := true)]) else h
  }

  /**
   The last reference to a file object is dropped: CPython's finalizer closes
   it, unless it is closed already.
   */
  function Release(h: Host, id: nat): (r: Host)
    ensures r.procs == h.procs && |r.sinks| == |h.sinks|
    ensures forall i :: 0 <= i < |h.sinks| && i != id ==> r.sinks[i] == h.sinks[i]
    ensures id < |h.sinks| ==> r.sinks[id] == if h.sinks[id].IsOpen() then h.sinks[id].(closeCalls := 1) else h.sinks[id]
  {
    if id < |h.sinks| && h.sinks[id].IsOpen() then h.(sinks := h.sinks[id := h.sinks[id].(closeCalls := 1)]) else h
  }

  // ----- the registry invariant -----

  predicate Distinct(xs: seq<string>) {
    forall i, j :: 0 <= i < j < |xs| ==> xs[i] != xs[j]
  }

  /** Every name in the key order is a key. */
  predicate Keyed(s: State) {
    forall k :: k in s.order ==> k in s.processes
  }

  /**
   `u` is the live unit of interface `name`: a running child that was sent no
   signal, spawned with `build_cmd(name, OUTPUT_DIR)`, writing its stderr to
   an open sink on `<dir>/<name>.stderr.log`.
   */
  predicate Live(h: Host, plan: Plan, name: string, u: Unit) {
    && u.proc < |h.procs| && u.sink < |h.sinks|
    && h.procs[u.proc] == Proc(plan.command(name), u.sink, false, false, false)
    && h.sinks[u.sink] == Sink(plan.logPath(name), 0)
  }

  /**
   The registry invariant: the key order lists each key once, every entry is
   live, and no two names share a process or a sink.
   */
  ghost predicate Valid(s: State, plan: Plan) {
    && Distinct(s.order)
    && (forall k :: k in s.processes <==> k in s.order)
    && (forall k :: k in s.processes ==> Live(s.host, plan, k, s.processes[k]))
    && Separate(s)
  }

  /** No two registered units share a child or a sink. */
  predicate Separate(s: State) {
    forall a, b :: a in s.processes && b in s.processes && a != b ==>
      s.processes[a].proc != s.processes[b].proc && s.processes[a].sink != s.processes[b].sink
  }

  /** An empty registry is valid over any host table. */
  lemma EmptyValid(h: Host, plan: Plan)
    ensures Valid(State(map[], [], h), plan)
  {
  }

  /** `h` holds everything `h0` holds, unchanged, and possibly more. */
  predicate Extends(h0: Host, h: Host) {
    && |h0.procs| <= |h.procs| && h.procs[..|h0.procs|] == h0.procs
    && |h0.sinks| <= |h.sinks| && h.sinks[..|h0.sinks|] == h0.sinks
  }

  lemma ExtendsValid(s: State, h: Host, plan: Plan)
    requires Valid(s, plan) && Extends(s.host, h)
    ensures Valid(s.(host := h), plan)
  {
    forall k | k in s.processes ensures Live(h, plan, k, s.processes[k]) {
      var u := s.processes[k];
      assert Live(s.host, plan, k, u);
      assert h.procs[u.proc] == h.procs[..|s.host.procs|][u.proc];
      assert h.sinks[u.sink] == h.sinks[..|s.host.sinks|][u.sink];
    }
  }

  /**
   Replacing the unit of `name` by a fresh live one, at the ends of the
   tables, keeps the invariant whatever happened to the old unit's handles.
   */
  lemma ReplaceValid(s: State, plan: Plan, name: string, u0: Unit, h: Host)
    requires Valid(s, plan) && name in s.processes && s.processes[name] == u0
    requires |h.procs| == |s.host.procs| + 1 && |h.sinks| == |s.host.sinks| + 1
    requires forall i :: 0 <= i < |s.host.procs| && i != u0.proc ==> h.procs[i] == s.host.procs[i]
    requires forall i :: 0 <= i < |s.host.sinks| && i != u0.sink ==> h.sinks[i] == s.host.sinks[i]
    requires Live(h, plan, name, Unit(|s.host.procs|, |s.host.sinks|))
    ensures Valid(s.(processes := s.processes[name := Unit(|s.host.procs|, |s.host.sinks|)], host := h), plan)
  {
    var u := Unit(|s.host.procs|, |s.host.sinks|);
    var s' := s.(processes := s.processes[name := u], host := h);
    forall k | k in s'.processes ensures Live(h, plan, k, s'.processes[k]) {
      if k != name {
        assert Live(s.host, plan, k, s.processes[k]);
      }
    }
    forall a, b | a in s'.processes && b in s'.processes && a != b
      ensures s'.processes[a].sink != s'.processes[b].sink
    {
      if a == name {
        assert Live(s.host, plan, b, s.processes[b]);
      } else if b == name {
        assert Live(s.host, plan, a, s.processes[a]);
      }
    }
  }

  // ----- start_all -----

  /**
   `processes[name] = u`. A new key goes to the end of the iteration order; an
   existing key keeps its place, and the dict drops the old pair. Nothing else
   refers to the old file object (`Popen` keeps only its descriptor, and the
   local `f_err` has been rebound), so CPython's finalizer closes it; the old
   child is not touched and keeps running.
   */
  function Assign(s: State, name: string, u: Unit): State {
    if name in s.processes then State(s.processes[name := u], s.order, Release(s.host, s.processes[name].sink))
    else State(s.processes[name := u], s.order + [name], s.host)
  }

  /**
   After the assignment `name` maps to `u` and every other key keeps its
   entry; the order still lists every key once; no child is touched, and the
   only sink that can change is the one the replaced entry held, which is
   closed if it was open.
   */
  lemma AssignFacts(s: State, name: string, u: Unit)
    requires Distinct(s.order) && (forall k :: k in s.processes <==> k in s.order)
    ensures var r := Assign(s, name, u);
      && r.processes.Keys == s.processes.Keys + {name} && r.processes[name] == u
      && (forall k :: k in s.processes && k != name ==> r.processes[k] == s.processes[k])
      && Distinct(r.order) && (forall k :: k in r.processes <==> k in r.order)
      && r.host.procs == s.host.procs && |r.host.sinks| == |s.host.sinks|
      && (forall i :: 0 <= i < |s.host.sinks| && (name !in s.processes || i != s.processes[name].sink) ==>
            r.host.sinks[i] == s.host.sinks[i])
      && (name in s.processes && s.processes[name].sink < |s.host.sinks| ==>
            !r.host.sinks[s.processes[name].sink].IsOpen())
  {
    var r := Assign(s, name, u);
    if name !in s.processes {
      forall i, j | 0 <= i < j < |r.order| ensures r.order[i] != r.order[j] {
        if j == |s.order| {
          assert s.order[i] in s.processes;
        }
      }
    }
  }

  /** One sink after the assignment: closed now if it was the replaced entry's open sink, as it was otherwise. */
  lemma AssignSink(s: State, name: string, u: Unit, i: nat)
    requires i < |s.host.sinks|
    ensures var h := Assign(s, name, u).host;
      && h.procs == s.host.procs && |h.sinks| == |s.host.sinks|
      && h.sinks[i] == if name in s.processes && i == s.processes[name].sink && s.host.sinks[i].IsOpen()
                       then s.host.sinks[i].(closeCalls := 1) else s.host.sinks[i]
  {
  }

  /** The fault strikes the iteration at position `i`, in the call that `kind` names. */
  predicate FaultAt(fault: Option<Fault>, i: nat, kind: FaultKind) {
    fault.Some? && fault.value.at == i && fault.value.kind == kind
  }

  /** `open(log, "ab")` and then `Popen(cmd, stderr=f_err)`: a fresh sink, and a fresh running child writing to it. */
  function Launch(h: Host, plan: Plan, name: string): (r: Host)
    ensures |r.procs| == |h.procs| + 1 && |r.sinks| == |h.sinks| + 1
    ensures forall i :: 0 <= i < |h.procs| ==> r.procs[i] == h.procs[i]
    ensures forall i :: 0 <= i < |h.sinks| ==> r.sinks[i] == h.sinks[i]
    ensures r.procs[|h.procs|] == Proc(plan.command(name), |h.sinks|, false, false, false)
    ensures r.sinks[|h.sinks|] == Sink(plan.logPath(name), 0)
  {
    Host(h.procs + [Proc(plan.command(name), |h.sinks|, false, false, false)], h.sinks + [Sink(plan.logPath(name), 0)])
  }

  lemma LaunchExtends(h: Host, plan: Plan, name: string)
    ensures Extends(h, Launch(h, plan, name))
  {
    var r := Launch(h, plan, name);
    assert r.procs[..|h.procs|] == h.procs;
    assert r.sinks[..|h.sinks|] == h.sinks;
  }

  /**
   One iteration of `start_all`'s loop, for `plan.interfaces[i]`: it raises
   when `open` or `Popen` does, and otherwise registers the interface.
   */
  function StartStep(r: Run, plan: Plan, i: nat, fault: Option<Fault>): Run
    requires i < |plan.interfaces|
  {
    if !r.ok then r
    else
      var name := plan.interfaces[i];
      var s := r.state;
      if FaultAt(fault, i, OpenFails) then Run(s, false)
      else if FaultAt(fault, i, SpawnFails) then Run(s.(host := OpenSink(s.host, plan.logPath(name))), false)
      else Run(Assign(s.(host := Launch(s.host, plan, name)), name, Unit(|s.host.procs|, |s.host.sinks|)), true)
  }

  /**
   The first `n` iterations of `start_all`'s loop; the first exception ends it.
   */
  function StartPrefix(s0: State, plan: Plan, n: nat, fault: Option<Fault>): Run
    requires n <= |plan.interfaces|
  {
    if n == 0 then Run(s0, true)
    else StartStep(StartPrefix(s0, plan, n - 1, fault), plan, n - 1, fault)
  }

  /** `start_all()`. */
  function StartAll(s0: State, plan: Plan, fault: Option<Fault>): Run {
    StartPrefix(s0, plan, |plan.interfaces|, fault)
  }

  /**
   An iteration returns normally exactly when the loop was still going and
   neither `open` nor `Popen` raised; then its interface is a key, and
   otherwise the keys are as before. After an exception nothing happens.
   */
  lemma StartStepFacts(r: Run, plan: Plan, i: nat, fault: Option<Fault>)
    requires i < |plan.interfaces|
    ensures var r' := StartStep(r, plan, i, fault);
      && (r'.ok <==> r.ok && !FaultAt(fault, i, OpenFails) && !FaultAt(fault, i, SpawnFails))
      && r'.state.processes.Keys == r.state.processes.Keys + (if r'.ok then {plan.interfaces[i]} else {})
      && (!r.ok ==> r' == r)
  {
    if r.ok && !FaultAt(fault, i, OpenFails) && !FaultAt(fault, i, SpawnFails) {
      var s, name := r.state, plan.interfaces[i];
      var h := Launch(s.host, plan, name);
      assert StartStep(r, plan, i, fault).state == Assign(s.(host := h), name, Unit(|s.host.procs|, |s.host.sinks|));
    }
  }

  /** How many interfaces the first `n` iterations start before an exception. */
  function Started(n: nat, fault: Option<Fault>): nat {
    if fault.Some? && fault.value.at < n then fault.value.at else n
  }

  /** `Popen` raised after `open` succeeded: that sink is left open and unregistered. */
  predicate Leaks(n: nat, fault: Option<Fault>) {
    fault.Some? && fault.value.at < n && fault.value.kind == SpawnFails
  }

  function Names(xs: seq<string>, m: nat): set<string>
    requires m <= |xs|
  {
    set k | 0 <= k < m :: xs[k]
  }

  lemma NamesSnoc(xs: seq<string>, m: nat)
    requires m < |xs|
    ensures Names(xs, m + 1) == Names(xs, m) + {xs[m]}
  {
  }

  /** Position `k` is the last occurrence of its name among the first `m` interfaces. */
  predicate LastAt(xs: seq<string>, k: nat, m: nat)
    requires k < m <= |xs|
  {
    forall j :: k < j < m ==> xs[j] != xs[k]
  }

  /** The last position below `m` that holds `name`. */
  function LastBefore(xs: seq<string>, m: nat, name: string): (k: nat)
    requires m <= |xs| && name in Names(xs, m)
    ensures k < m && xs[k] == name && LastAt(xs, k, m)
    decreases m
  {
    NamesSnoc(xs, m - 1);
    if xs[m - 1] == name then m - 1 else LastBefore(xs, m - 1, name)
  }

  /**
   Position `k` of a run of `start_all` that began with tables of lengths `p0`
   and `k0` holds the child started for `name`, still running, and the sink
   opened for it: still open when `open`, closed once otherwise.
   */
  predicate SpawnedAt(h: Host, plan: Plan, p0: nat, k0: nat, k: nat, name: string, open: bool) {
    && p0 + k < |h.procs| && k0 + k < |h.sinks|
    && h.procs[p0 + k] == Proc(plan.command(name), k0 + k, false, false, false)
    && h.sinks[k0 + k] == Sink(plan.logPath(name), if open then 0 else 1)
  }

  lemma ExtendsRefl(h: Host)
    ensures Extends(h, h)
  {
    assert h.procs[..|h.procs|] == h.procs && h.sinks[..|h.sinks|] == h.sinks;
  }

  lemma SpawnedAtExtends(h: Host, h': Host, plan: Plan, p0: nat, k0: nat, k: nat, name: string, open: bool)
    requires SpawnedAt(h, plan, p0, k0, k, name, open) && Extends(h, h')
    ensures SpawnedAt(h', plan, p0, k0, k, name, open)
  {
    assert h'.procs[..|h.procs|][p0 + k] == h'.procs[p0 + k];
    assert h'.sinks[..|h.sinks|][k0 + k] == h'.sinks[k0 + k];
  }

  /**
   The three ways an iteration that finds the run still going can end:
   `open` raises, `Popen` raises, or the interface is started.
   */
  lemma StartStepCases(r: Run, plan: Plan, n: nat, fault: Option<Fault>)
    requires 0 < n <= |plan.interfaces| && r.ok && Started(n - 1, fault) == n - 1
    ensures FaultAt(fault, n - 1, OpenFails) ==> Started(n, fault) == n - 1 && !Leaks(n, fault)
    ensures FaultAt(fault, n - 1, SpawnFails) ==> Started(n, fault) == n - 1 && Leaks(n, fault)
    ensures !FaultAt(fault, n - 1, OpenFails) && !FaultAt(fault, n - 1, SpawnFails) ==>
              Started(n, fault) == n && !Leaks(n, fault)
  {
    if fault.Some? && fault.value.at == n - 1 {
      match fault.value.kind
      case OpenFails =>
      case SpawnFails =>
    }
  }

  /** How far the first `n` iterations got, and how much they added to the host table. */
  lemma {:induction false} StartShape(s0: State, plan: Plan, n: nat, fault: Option<Fault>)
    requires n <= |plan.interfaces|
    ensures var r := StartPrefix(s0, plan, n, fault);
      var m := Started(n, fault);
      && r.ok == (m == n)
      && |r.state.host.procs| == |s0.host.procs| + m
      && |r.state.host.sinks| == |s0.host.sinks| + m + (if Leaks(n, fault) then 1 else 0)
  {
    if n > 0 {
      StartShape(s0, plan, n - 1, fault);
      var r := StartPrefix(s0, plan, n - 1, fault);
      if r.ok {
        StartStepCases(r, plan, n, fault);
      } else {
        assert Started(n, fault) == Started(n - 1, fault) && Leaks(n, fault) == Leaks(n - 1, fault);
      }
    }
  }

  /** The iteration at position `i` runs to its end: the run is still going and neither call raises. */
  predicate Spawns(r: Run, i: nat, fault: Option<Fault>) {
    r.ok && !FaultAt(fault, i, OpenFails) && !FaultAt(fault, i, SpawnFails)
  }

  /** An iteration runs to its end only when no earlier one raised. */
  lemma StartedSpawns(s0: State, plan: Plan, n: nat, fault: Option<Fault>)
    requires 0 < n <= |plan.interfaces| && Spawns(StartPrefix(s0, plan, n - 1, fault), n - 1, fault)
    ensures Started(n - 1, fault) == n - 1 && Started(n, fault) == n
  {
    StartShape(s0, plan, n - 1, fault);
  }

  /** An iteration that runs to its end registers a fresh unit at the ends of the tables for its interface. */
  lemma StartStepSpawns(s0: State, plan: Plan, n: nat, fault: Option<Fault>)
    requires 0 < n <= |plan.interfaces| && Spawns(StartPrefix(s0, plan, n - 1, fault), n - 1, fault)
    ensures var r, r' := StartPrefix(s0, plan, n - 1, fault), StartPrefix(s0, plan, n, fault);
      var h := r.state.host;
      && Started(n - 1, fault) == n - 1 && Started(n, fault) == n && r'.ok
      && |h.procs| == |s0.host.procs| + n - 1 && |h.sinks| == |s0.host.sinks| + n - 1
      && r'.state.processes == r.state.processes[plan.interfaces[n - 1] := Unit(|h.procs|, |h.sinks|)]
  {
    StartShape(s0, plan, n - 1, fault);
    StartStepCases(StartPrefix(s0, plan, n - 1, fault), plan, n, fault);
  }

  /** The state an iteration that runs to its end leaves: a launch, then the assignment. */
  lemma StartStepState(s0: State, plan: Plan, n: nat, fault: Option<Fault>)
    requires 0 < n <= |plan.interfaces| && Spawns(StartPrefix(s0, plan, n - 1, fault), n - 1, fault)
    ensures var r, r' := StartPrefix(s0, plan, n - 1, fault), StartPrefix(s0, plan, n, fault);
      var name, h := plan.interfaces[n - 1], r.state.host;
      r'.state == Assign(r.state.(host := Launch(h, plan, name)), name, Unit(|h.procs|, |h.sinks|))
  {
  }

  /** An iteration that raises, or finds the loop already ended, leaves the registry alone and only adds handles. */
  lemma StartStepRaises(s0: State, plan: Plan, n: nat, fault: Option<Fault>)
    requires 0 < n <= |plan.interfaces| && !Spawns(StartPrefix(s0, plan, n - 1, fault), n - 1, fault)
    ensures var r, r' := StartPrefix(s0, plan, n - 1, fault), StartPrefix(s0, plan, n, fault);
      && Extends(r.state.host, r'.state.host)
      && Started(n, fault) == Started(n - 1, fault) && !r'.ok
      && r'.state.processes == r.state.processes && r'.state.order == r.state.order
  {
    StartShape(s0, plan, n - 1, fault);
    var r := StartPrefix(s0, plan, n - 1, fault);
    var h := r.state.host;
    ExtendsRefl(h);
    if r.ok {
      StartStepCases(r, plan, n, fault);
      if FaultAt(fault, n - 1, SpawnFails) {
        var h1 := OpenSink(h, plan.logPath(plan.interfaces[n - 1]));
        assert h1.sinks[..|h.sinks|] == h.sinks;
        assert h1.procs[..|h.procs|] == h.procs;
      }
    } else {
      assert Started(n, fault) == Started(n - 1, fault);
    }
  }

  /** Start-up only adds handles to the table: every entry's handles stay inside it. */
  lemma {:induction false} StartInRange(s0: State, plan: Plan, n: nat, fault: Option<Fault>)
    requires InRange(s0) && n <= |plan.interfaces|
    ensures InRange(StartPrefix(s0, plan, n, fault).state)
  {
    if n > 0 {
      StartInRange(s0, plan, n - 1, fault);
      if Spawns(StartPrefix(s0, plan, n - 1, fault), n - 1, fault) {
        StartStepSpawns(s0, plan, n, fault);
        StartStepState(s0, plan, n, fault);
      } else {
        StartStepRaises(s0, plan, n, fault);
      }
    }
  }

  /**
   The unit registered for `name` after `m` iterations: the one started for
   its last occurrence if it was started, its old unit otherwise.
   */
  lemma StartOwner(s0: State, plan: Plan, m: nat, fault: Option<Fault>, name: string)
    requires InRange(s0) && m <= |plan.interfaces| && name in StartPrefix(s0, plan, m, fault).state.processes
    ensures var u := StartPrefix(s0, plan, m, fault).state.processes[name];
      var xs, started := plan.interfaces, Started(m, fault);
      if name in Names(xs, started) then
        u == Unit(|s0.host.procs| + LastBefore(xs, started, name), |s0.host.sinks| + LastBefore(xs, started, name))
      else name in s0.processes && u == s0.processes[name] && u.sink < |s0.host.sinks|
  {
    StartKeys(s0, plan, m, fault);
    var xs, started := plan.interfaces, Started(m, fault);
    if name in Names(xs, started) {
      StartLast(s0, plan, m, fault, LastBefore(xs, started, name));
    } else {
      StartUntouched(s0, plan, m, fault, name);
    }
  }

  /**
   A sink started earlier is closed by the iteration at `n - 1` exactly when
   that iteration replaces the entry it belonged to. `s` is the state the
   iteration starts from; `owner` says which sink the entry of `xs[n - 1]`
   holds, if there is one.
   */
  lemma StartSinkStep(s: State, plan: Plan, n: nat, p0: nat, k0: nat, k: nat)
    requires 0 < n <= |plan.interfaces| && k < n - 1
    requires SpawnedAt(s.host, plan, p0, k0, k, plan.interfaces[k], LastAt(plan.interfaces, k, n - 1))
    requires Names(plan.interfaces, n - 1) <= s.processes.Keys
    requires var name := plan.interfaces[n - 1];
      name in s.processes ==>
        if name in Names(plan.interfaces, n - 1) then s.processes[name].sink == k0 + LastBefore(plan.interfaces, n - 1, name)
        else s.processes[name].sink < k0
    ensures var name := plan.interfaces[n - 1];
      SpawnedAt(Assign(s.(host := Launch(s.host, plan, name)), name, Unit(|s.host.procs|, |s.host.sinks|)).host,
                plan, p0, k0, k, plan.interfaces[k], LastAt(plan.interfaces, k, n))
  {
    var xs := plan.interfaces;
    var h, name := s.host, xs[n - 1];
    var hl := Launch(h, plan, name);
    var s1, u := s.(host := hl), Unit(|h.procs|, |h.sinks|);
    var h' := Assign(s1, name, u).host;
    LaunchExtends(h, plan, name);
    SpawnedAtExtends(h, hl, plan, p0, k0, k, xs[k], LastAt(xs, k, n - 1));
    AssignSink(s1, name, u, k0 + k);
    var before := Sink(plan.logPath(xs[k]), if LastAt(xs, k, n - 1) then 0 else 1);
    assert hl.sinks[k0 + k] == before;
    assert xs[k] in Names(xs, n - 1);
    if xs[k] == name {
      var last := LastBefore(xs, n - 1, name);
      assert s.processes[name].sink == k0 + last;
      if k == last {
        assert before.IsOpen();
        assert !LastAt(xs, k, n) by { assert xs[n - 1] == xs[k]; }
        assert h'.sinks[k0 + k] == before.(closeCalls := 1);
      } else {
        assert !LastAt(xs, k, n - 1) by { assert k < last && xs[last] == xs[k]; }
        assert h'.sinks[k0 + k] == before;
      }
    } else {
      if name in s.processes && name in Names(xs, n - 1) {
        assert xs[LastBefore(xs, n - 1, name)] != xs[k];
      }
      assert h'.sinks[k0 + k] == before;
      assert LastAt(xs, k, n) == LastAt(xs, k, n - 1) by { assert xs[n - 1] != xs[k]; }
    }
  }

  /** The iteration that starts `name` leaves its fresh child running and its fresh sink open. */
  lemma LaunchSpawnedAt(s: State, plan: Plan, name: string, p0: nat, k0: nat, k: nat)
    requires InRange(s) && |s.host.procs| == p0 + k && |s.host.sinks| == k0 + k
    ensures SpawnedAt(Assign(s.(host := Launch(s.host, plan, name)), name, Unit(p0 + k, k0 + k)).host,
                      plan, p0, k0, k, name, true)
  {
    AssignSink(s.(host := Launch(s.host, plan, name)), name, Unit(p0 + k, k0 + k), k0 + k);
    assert name in s.processes ==> s.processes[name].sink < k0 + k;
  }

  /**
   Every interface started so far got a fresh child with its command, still
   running, and a fresh sink on its log, which is open exactly when no later
   occurrence of the same name replaced its entry.
   */
  lemma {:induction false} StartSpawned(s0: State, plan: Plan, n: nat, fault: Option<Fault>, k: nat)
    requires InRange(s0) && n <= |plan.interfaces| && k < Started(n, fault)
    ensures SpawnedAt(StartPrefix(s0, plan, n, fault).state.host, plan, |s0.host.procs|, |s0.host.sinks|, k,
                      plan.interfaces[k], LastAt(plan.interfaces, k, Started(n, fault)))
    decreases n, 1
  {
    if !Spawns(StartPrefix(s0, plan, n - 1, fault), n - 1, fault) {
      StartSpawnedKept(s0, plan, n, fault, k);
    } else if k < n - 1 {
      StartSpawnedEarlier(s0, plan, n, fault, k);
    } else {
      StartSpawnedNew(s0, plan, n, fault);
    }
  }

  /** An iteration that raises leaves the earlier units' handles as they were. */
  lemma {:induction false} StartSpawnedKept(s0: State, plan: Plan, n: nat, fault: Option<Fault>, k: nat)
    requires InRange(s0) && 0 < n <= |plan.interfaces| && !Spawns(StartPrefix(s0, plan, n - 1, fault), n - 1, fault)
    requires k < Started(n, fault)
    ensures Started(n, fault) == Started(n - 1, fault)
    ensures SpawnedAt(StartPrefix(s0, plan, n, fault).state.host, plan, |s0.host.procs|, |s0.host.sinks|, k,
                      plan.interfaces[k], LastAt(plan.interfaces, k, Started(n, fault)))
    decreases n, 0
  {
    StartStepRaises(s0, plan, n, fault);
    StartSpawned(s0, plan, n - 1, fault, k);
    SpawnedAtExtends(StartPrefix(s0, plan, n - 1, fault).state.host, StartPrefix(s0, plan, n, fault).state.host, plan,
                     |s0.host.procs|, |s0.host.sinks|, k, plan.interfaces[k], LastAt(plan.interfaces, k, Started(n, fault)));
  }

  /** A unit started before an iteration that runs to its end. */
  lemma {:induction false} StartSpawnedEarlier(s0: State, plan: Plan, n: nat, fault: Option<Fault>, k: nat)
    requires InRange(s0) && 0 < n <= |plan.interfaces| && k < n - 1
    requires Spawns(StartPrefix(s0, plan, n - 1, fault), n - 1, fault)
    ensures Started(n, fault) == n
    ensures SpawnedAt(StartPrefix(s0, plan, n, fault).state.host, plan, |s0.host.procs|, |s0.host.sinks|, k,
                      plan.interfaces[k], LastAt(plan.interfaces, k, n))
    decreases n, 0
  {
    StartedSpawns(s0, plan, n, fault);
    StartSpawned(s0, plan, n - 1, fault, k);
    StartSpawnedStep(s0, plan, n, fault, k);
  }

  /** An iteration that runs to its end keeps an earlier unit's child, and closes its sink when it replaces it. */
  lemma StartSpawnedStep(s0: State, plan: Plan, n: nat, fault: Option<Fault>, k: nat)
    requires InRange(s0) && 0 < n <= |plan.interfaces| && k < n - 1
    requires Spawns(StartPrefix(s0, plan, n - 1, fault), n - 1, fault) && Started(n - 1, fault) == n - 1
    requires SpawnedAt(StartPrefix(s0, plan, n - 1, fault).state.host, plan, |s0.host.procs|, |s0.host.sinks|, k,
                       plan.interfaces[k], LastAt(plan.interfaces, k, n - 1))
    ensures SpawnedAt(StartPrefix(s0, plan, n, fault).state.host, plan, |s0.host.procs|, |s0.host.sinks|, k,
                      plan.interfaces[k], LastAt(plan.interfaces, k, n))
  {
    var r := StartPrefix(s0, plan, n - 1, fault);
    StartStepState(s0, plan, n, fault);
    StartKeys(s0, plan, n - 1, fault);
    var name := plan.interfaces[n - 1];
    if name in r.state.processes {
      StartOwner(s0, plan, n - 1, fault, name);
    }
    StartSinkStep(r.state, plan, n, |s0.host.procs|, |s0.host.sinks|, k);
  }

  lemma StartSpawnedNew(s0: State, plan: Plan, n: nat, fault: Option<Fault>)
    requires InRange(s0) && 0 < n <= |plan.interfaces| && Spawns(StartPrefix(s0, plan, n - 1, fault), n - 1, fault)
    ensures Started(n, fault) == n
    ensures SpawnedAt(StartPrefix(s0, plan, n, fault).state.host, plan, |s0.host.procs|, |s0.host.sinks|, n - 1,
                      plan.interfaces[n - 1], true)
  {
    StartStepSpawns(s0, plan, n, fault);
    StartStepState(s0, plan, n, fault);
    StartInRange(s0, plan, n - 1, fault);
    LaunchSpawnedAt(StartPrefix(s0, plan, n - 1, fault).state, plan, plan.interfaces[n - 1], |s0.host.procs|, |s0.host.sinks|, n - 1);
  }

  /** When `Popen` raised, the sink opened for that interface is the last one in the table. */
  lemma {:induction false} StartLeak(s0: State, plan: Plan, n: nat, fault: Option<Fault>)
    requires n <= |plan.interfaces| && Leaks(n, fault)
    ensures var h := StartPrefix(s0, plan, n, fault).state.host;
      && |s0.host.sinks| + fault.value.at < |h.sinks|
      && h.sinks[|s0.host.sinks| + fault.value.at] == Sink(plan.logPath(plan.interfaces[fault.value.at]), 0)
  {
    var r := StartPrefix(s0, plan, n - 1, fault);
    StartShape(s0, plan, n - 1, fault);
    if Leaks(n - 1, fault) {
      StartLeak(s0, plan, n - 1, fault);
    } else {
      StartStepCases(r, plan, n, fault);
    }
  }

  /** The keys after `n` iterations: the old ones and the interfaces started. */
  lemma {:induction false} StartKeys(s0: State, plan: Plan, n: nat, fault: Option<Fault>)
    requires n <= |plan.interfaces|
    ensures StartPrefix(s0, plan, n, fault).state.processes.Keys == s0.processes.Keys + Names(plan.interfaces, Started(n, fault))
    decreases n, 1
  {
    if n == 0 {
      assert Names(plan.interfaces, Started(0, fault)) == {};
    } else if Spawns(StartPrefix(s0, plan, n - 1, fault), n - 1, fault) {
      StartKeysSpawns(s0, plan, n, fault);
    } else {
      StartKeysRaises(s0, plan, n, fault);
    }
  }

  /** An iteration that runs to its end adds its interface to the keys. */
  lemma {:induction false} StartKeysSpawns(s0: State, plan: Plan, n: nat, fault: Option<Fault>)
    requires 0 < n <= |plan.interfaces| && Spawns(StartPrefix(s0, plan, n - 1, fault), n - 1, fault)
    ensures StartPrefix(s0, plan, n, fault).state.processes.Keys == s0.processes.Keys + Names(plan.interfaces, Started(n, fault))
    decreases n, 0
  {
    var r, r' := StartPrefix(s0, plan, n - 1, fault), StartPrefix(s0, plan, n, fault);
    StartKeys(s0, plan, n - 1, fault);
    StartStepSpawns(s0, plan, n, fault);
    NamesSnoc(plan.interfaces, n - 1);
    var name := plan.interfaces[n - 1];
    assert r'.state.processes.Keys == r.state.processes.Keys + {name};
    assert Names(plan.interfaces, Started(n, fault)) == Names(plan.interfaces, Started(n - 1, fault)) + {name};
  }

  /** An iteration that raises, or finds the loop already ended, adds no key. */
  lemma {:induction false} StartKeysRaises(s0: State, plan: Plan, n: nat, fault: Option<Fault>)
    requires 0 < n <= |plan.interfaces| && !Spawns(StartPrefix(s0, plan, n - 1, fault), n - 1, fault)
    ensures StartPrefix(s0, plan, n, fault).state.processes.Keys == s0.processes.Keys + Names(plan.interfaces, Started(n, fault))
    decreases n, 0
  {
    StartKeys(s0, plan, n - 1, fault);
    StartStepRaises(s0, plan, n, fault);
  }


  /** A name not started keeps its old entry. */
  lemma {:induction false} StartUntouched(s0: State, plan: Plan, n: nat, fault: Option<Fault>, name: string)
    requires n <= |plan.interfaces| && name in s0.processes && name !in Names(plan.interfaces, Started(n, fault))
    ensures var ps := StartPrefix(s0, plan, n, fault).state.processes;
      name in ps && ps[name] == s0.processes[name]
  {
    if n > 0 {
      if Spawns(StartPrefix(s0, plan, n - 1, fault), n - 1, fault) {
        StartStepSpawns(s0, plan, n, fault);
        NamesSnoc(plan.interfaces, n - 1);
      } else {
        StartStepRaises(s0, plan, n, fault);
      }
      StartUntouched(s0, plan, n - 1, fault, name);
    }
  }

  /** The entry of a started name is the unit started for its last occurrence. */
  lemma {:induction false} StartLast(s0: State, plan: Plan, n: nat, fault: Option<Fault>, k: nat)
    requires n <= |plan.interfaces| && k < Started(n, fault) && LastAt(plan.interfaces, k, Started(n, fault))
    ensures var ps := StartPrefix(s0, plan, n, fault).state.processes;
      plan.interfaces[k] in ps && ps[plan.interfaces[k]] == Unit(|s0.host.procs| + k, |s0.host.sinks| + k)
    decreases n, 1
  {
    if !Spawns(StartPrefix(s0, plan, n - 1, fault), n - 1, fault) {
      StartLastRaises(s0, plan, n, fault, k);
    } else if k < n - 1 {
      StartLastOlder(s0, plan, n, fault, k);
    } else {
      StartLastNew(s0, plan, n, fault);
    }
  }

  /** An iteration that raises changes no entry. */
  lemma {:induction false} StartLastRaises(s0: State, plan: Plan, n: nat, fault: Option<Fault>, k: nat)
    requires 0 < n <= |plan.interfaces| && !Spawns(StartPrefix(s0, plan, n - 1, fault), n - 1, fault)
    requires k < Started(n, fault) && LastAt(plan.interfaces, k, Started(n, fault))
    ensures var ps := StartPrefix(s0, plan, n, fault).state.processes;
      plan.interfaces[k] in ps && ps[plan.interfaces[k]] == Unit(|s0.host.procs| + k, |s0.host.sinks| + k)
    decreases n, 0
  {
    StartStepRaises(s0, plan, n, fault);
    StartLast(s0, plan, n - 1, fault, k);
  }

  /** An entry whose name is not configured again keeps the unit it was given. */
  lemma {:induction false} StartLastOlder(s0: State, plan: Plan, n: nat, fault: Option<Fault>, k: nat)
    requires 0 < n <= |plan.interfaces| && Spawns(StartPrefix(s0, plan, n - 1, fault), n - 1, fault)
    requires k < n - 1 && k < Started(n, fault) && LastAt(plan.interfaces, k, Started(n, fault))
    ensures var ps := StartPrefix(s0, plan, n, fault).state.processes;
      plan.interfaces[k] in ps && ps[plan.interfaces[k]] == Unit(|s0.host.procs| + k, |s0.host.sinks| + k)
    decreases n, 0
  {
    var xs := plan.interfaces;
    StartedSpawns(s0, plan, n, fault);
    assert xs[n - 1] != xs[k];
    assert LastAt(xs, k, n - 1);
    StartLast(s0, plan, n - 1, fault, k);
    StartLastEarlier(s0, plan, n, fault, k);
  }

  lemma StartLastEarlier(s0: State, plan: Plan, n: nat, fault: Option<Fault>, k: nat)
    requires 0 < n <= |plan.interfaces| && Spawns(StartPrefix(s0, plan, n - 1, fault), n - 1, fault)
    requires k < n - 1 && plan.interfaces[n - 1] != plan.interfaces[k]
    requires var ps := StartPrefix(s0, plan, n - 1, fault).state.processes;
      plan.interfaces[k] in ps && ps[plan.interfaces[k]] == Unit(|s0.host.procs| + k, |s0.host.sinks| + k)
    ensures var ps := StartPrefix(s0, plan, n, fault).state.processes;
      plan.interfaces[k] in ps && ps[plan.interfaces[k]] == Unit(|s0.host.procs| + k, |s0.host.sinks| + k)
  {
    StartStepSpawns(s0, plan, n, fault);
  }

  /** Iteration `n - 1`, when it runs to its end, registers its interface at the ends of the tables. */
  lemma StartLastNew(s0: State, plan: Plan, n: nat, fault: Option<Fault>)
    requires 0 < n <= |plan.interfaces| && Spawns(StartPrefix(s0, plan, n - 1, fault), n - 1, fault)
    ensures var ps := StartPrefix(s0, plan, n, fault).state.processes;
      plan.interfaces[n - 1] in ps && ps[plan.interfaces[n - 1]] == Unit(|s0.host.procs| + n - 1, |s0.host.sinks| + n - 1)
  {
    StartStepSpawns(s0, plan, n, fault);
  }

  /** Registering a fresh live unit under a new name keeps the invariant. */
  lemma FreshAssignValid(s: State, h: Host, plan: Plan, name: string, u: Unit)
    requires Valid(s, plan) && Extends(s.host, h) && name !in s.processes
    requires u.proc >= |s.host.procs| && u.sink >= |s.host.sinks| && Live(h, plan, name, u)
    ensures Valid(Assign(s.(host := h), name, u), plan)
  {
    ExtendsValid(s, h, plan);
    AssignFacts(s.(host := h), name, u);
    var s' := Assign(s.(host := h), name, u);
    forall a, b | a in s'.processes && b in s'.processes && a != b
      ensures s'.processes[a].proc != s'.processes[b].proc && s'.processes[a].sink != s'.processes[b].sink
    {
      if a != name && b != name {
        assert s'.processes[a] == s.processes[a] && s'.processes[b] == s.processes[b];
      } else if a == name {
        assert Live(s.host, plan, b, s.processes[b]);
      } else {
        assert Live(s.host, plan, a, s.processes[a]);
      }
    }
  }

  /** `start_all` keeps the registry invariant, whether or not it raises. */
  lemma {:induction false} StartValid(s0: State, plan: Plan, n: nat, fault: Option<Fault>)
    requires Valid(s0, plan) && n <= |plan.interfaces|
    ensures Valid(StartPrefix(s0, plan, n, fault).state, plan)
  {
    if n > 0 {
      var r := StartPrefix(s0, plan, n - 1, fault);
      var h := r.state.host;
      var h' := StartPrefix(s0, plan, n, fault).state.host;
      StartValid(s0, plan, n - 1, fault);
      if Spawns(r, n - 1, fault) {
        StartStepSpawns(s0, plan, n, fault);
        StartStepState(s0, plan, n, fault);
        var name := plan.interfaces[n - 1];
        var u := Unit(|h.procs|, |h.sinks|);
        if name in r.state.processes {
          ReplaceValid(r.state, plan, name, r.state.processes[name], h');
        } else {
          LaunchExtends(h, plan, name);
          FreshAssignValid(r.state, Launch(h, plan, name), plan, name, u);
        }
      } else {
        StartStepRaises(s0, plan, n, fault);
        ExtendsValid(r.state, h', plan);
      }
    }
  }

  /**
   `start_all()` keeps every key it found, returns normally exactly when no
   fault strikes a configured position, and then every configured interface
   is a key.
   */
  lemma StartAllFacts(s0: State, plan: Plan, fault: Option<Fault>)
    ensures var r := StartAll(s0, plan, fault);
      && s0.processes.Keys <= r.state.processes.Keys
      && (r.ok <==> fault.None? || fault.value.at >= |plan.interfaces|)
      && (r.ok ==> forall k :: 0 <= k < |plan.interfaces| ==> plan.interfaces[k] in r.state.processes)
  {
    var n := |plan.interfaces|;
    StartShape(s0, plan, n, fault);
    StartKeys(s0, plan, n, fault);
    var r := StartAll(s0, plan, fault);
    if r.ok {
      forall k | 0 <= k < n ensures plan.interfaces[k] in r.state.processes {
        assert plan.interfaces[k] in Names(plan.interfaces, n);
      }
    }
  }

  /** Once an iteration has raised, the remaining ones change nothing. */
  lemma {:induction false} StartStuck(s0: State, plan: Plan, n: nat, m: nat, fault: Option<Fault>)
    requires n <= m <= |plan.interfaces| && !StartPrefix(s0, plan, n, fault).ok
    ensures StartPrefix(s0, plan, m, fault) == StartPrefix(s0, plan, n, fault)
    decreases m
  {
    if m > n {
      StartStuck(s0, plan, n, m - 1, fault);
    }
  }

  /**
   `start_all` from the empty registry, when nothing raises: the key set is
   the set of configured interfaces, one child and one sink are added per
   configured position, and every key maps to a freshly spawned running child
   with the command `build_cmd` gives for it and a freshly opened sink on its
   log file. A name configured twice keeps the later unit.
   */
  lemma StartAllFromEmpty(plan: Plan, h0: Host)
    ensures var r := StartAll(State(map[], [], h0), plan, None);
      && r.ok && Valid(r.state, plan)
      && |r.state.host.procs| == |h0.procs| + |plan.interfaces|
      && |r.state.host.sinks| == |h0.sinks| + |plan.interfaces|
      && r.state.processes.Keys == (set k | 0 <= k < |plan.interfaces| :: plan.interfaces[k])
      && (forall name :: name in r.state.processes ==>
            r.state.processes[name].proc >= |h0.procs| && r.state.processes[name].sink >= |h0.sinks|)
      && (forall k :: 0 <= k < |plan.interfaces| && LastAt(plan.interfaces, k, |plan.interfaces|) ==>
            r.state.processes[plan.interfaces[k]] == Unit(|h0.procs| + k, |h0.sinks| + k))
  {
    var s0 := State(map[], [], h0);
    var n := |plan.interfaces|;
    StartShape(s0, plan, n, None);
    StartKeys(s0, plan, n, None);
    StartValid(s0, plan, n, None);
    var r := StartAll(s0, plan, None);
    forall name | name in r.state.processes
      ensures r.state.processes[name].proc >= |h0.procs| && r.state.processes[name].sink >= |h0.sinks|
    {
      StartLast(s0, plan, n, None, LastBefore(plan.interfaces, n, name));
    }
    forall k | 0 <= k < n && LastAt(plan.interfaces, k, n)
      ensures r.state.processes[plan.interfaces[k]] == Unit(|h0.procs| + k, |h0.sinks| + k)
    {
      StartLast(s0, plan, n, None, k);
    }
  }

  /**
   A name configured twice: the child started for its earlier occurrence
   keeps running and no registry entry refers to it any more; its sink was
   closed, once, when the later occurrence replaced the entry.
   */
  lemma StartAllOrphans(plan: Plan, h0: Host, i: nat, j: nat)
    requires i < j < |plan.interfaces| && plan.interfaces[i] == plan.interfaces[j]
    ensures var r := StartAll(State(map[], [], h0), plan, None);
      var h := r.state.host;
      && |h0.procs| + i < |h.procs| && |h0.sinks| + i < |h.sinks|
      && !h.procs[|h0.procs| + i].exited && !h.procs[|h0.procs| + i].terminateSent
      && !h.sinks[|h0.sinks| + i].IsOpen() && h.sinks[|h0.sinks| + i].closeCalls == 1
      && (forall name :: name in r.state.processes ==>
            r.state.processes[name].proc != |h0.procs| + i && r.state.processes[name].sink != |h0.sinks| + i)
  {
    var s0 := State(map[], [], h0);
    var n := |plan.interfaces|;
    StartSpawned(s0, plan, n, None, i);
    assert !LastAt(plan.interfaces, i, n) by {
      assert plan.interfaces[j] == plan.interfaces[i];
    }
    StartKeys(s0, plan, n, None);
    var r := StartAll(s0, plan, None);
    forall name | name in r.state.processes
      ensures r.state.processes[name].proc != |h0.procs| + i && r.state.processes[name].sink != |h0.sinks| + i
    {
      var k := LastBefore(plan.interfaces, n, name);
      StartLast(s0, plan, n, None, k);
      assert k != i by {
        assert plan.interfaces[j] == plan.interfaces[i];
      }
    }
  }

  /**
   `start_all` when `open` or `Popen` raises at position `f`: the exception
   propagates, only the interfaces before `f` were started, and those children
   stay running (nothing stops them). The sink of a started interface is
   still open exactly when no later occurrence of its name replaced it; if
   `Popen` raised, the sink opened for `f` stays open and unregistered.
   */
  lemma StartAllFault(plan: Plan, h0: Host, f: Fault)
    requires f.at < |plan.interfaces|
    ensures var r := StartAll(State(map[], [], h0), plan, Some(f));
      var h := r.state.host;
      && !r.ok && Valid(r.state, plan)
      && r.state.processes.Keys == (set k | 0 <= k < f.at :: plan.interfaces[k])
      && |h.procs| == |h0.procs| + f.at
      && |h.sinks| == |h0.sinks| + f.at + (if f.kind == SpawnFails then 1 else 0)
      && (forall i :: |h0.procs| <= i < |h.procs| ==> !h.procs[i].exited && !h.procs[i].terminateSent)
      && (forall k :: 0 <= k < f.at ==>
            h.sinks[|h0.sinks| + k].IsOpen() == LastAt(plan.interfaces, k, f.at))
      && (f.kind == SpawnFails ==>
            && h.sinks[|h0.sinks| + f.at].IsOpen()
            && forall name :: name in r.state.processes ==> r.state.processes[name].sink != |h0.sinks| + f.at)
  {
    var s0 := State(map[], [], h0);
    var n := |plan.interfaces|;
    StartShape(s0, plan, n, Some(f));
    StartKeys(s0, plan, n, Some(f));
    StartValid(s0, plan, n, Some(f));
    var r := StartAll(s0, plan, Some(f));
    var h := r.state.host;
    var p0, k0 := |h0.procs|, |h0.sinks|;
    forall i | p0 <= i < |h.procs| ensures !h.procs[i].exited && !h.procs[i].terminateSent {
      StartSpawned(s0, plan, n, Some(f), i - p0);
    }
    forall k | 0 <= k < f.at ensures h.sinks[k0 + k].IsOpen() == LastAt(plan.interfaces, k, f.at) {
      StartSpawned(s0, plan, n, Some(f), k);
    }
    if f.kind == SpawnFails {
      StartLeak(s0, plan, n, Some(f));
    }
    forall name | name in r.state.processes ensures r.state.processes[name].sink < k0 + f.at {
      var k := LastBefore(plan.interfaces, f.at, name);
      StartLast(s0, plan, n, Some(f), k);
    }
  }

  // ----- one pass of the monitor loop -----

  /** The old unit's child has been reaped by `poll()` and its sink closed. */
  function Retire(h: Host, u: Unit): (r: Host)
    ensures |r.procs| == |h.procs| && |r.sinks| == |h.sinks|
    ensures forall i :: 0 <= i < |h.procs| && i != u.proc ==> r.procs[i] == h.procs[i]
    ensures forall i :: 0 <= i < |h.sinks| && i != u.sink ==> r.sinks[i] == h.sinks[i]
    ensures u.proc < |h.procs| ==> r.procs[u.proc] == h.procs[u.proc].(exited := true)
    ensures u.sink < |h.sinks| ==> r.sinks[u.sink] == h.sinks[u.sink].(closeCalls := h.sinks[u.sink].closeCalls + 1)
  {
    CloseSink(Reap(h, u.proc), u.sink)
  }

  /**
   Entry `j` of the snapshot `list(processes.items())` is examined: if its
   child has exited, its sink is closed and a new sink and child replace it.
   */
  function MonitorStep(r: Run, s0: State, plan: Plan, j: nat, exited: set<string>, fault: Option<Fault>): Run
    requires j < |s0.order| && Keyed(s0)
  {
    var name := s0.order[j];
    if !r.ok || name !in exited then r
    else
      var s := r.state;
      var h1 := Retire(s.host, s0.processes[name]);
      if FaultAt(fault, j, OpenFails) then Run(s.(host := h1), false)
      else
        var h2 := OpenSink(h1, plan.logPath(name));
        if FaultAt(fault, j, SpawnFails) then Run(s.(host := h2), false)
        else
          var u := Unit(|h2.procs|, |h1.sinks|);
          Run(s.(processes := s.processes[name := u], host := Spawn(h2, plan.command(name), u.sink)), true)
  }

  /** The first `n` entries of the snapshot; an exception ends the pass. */
  function MonitorPrefix(s0: State, plan: Plan, n: nat, exited: set<string>, fault: Option<Fault>): Run
    requires n <= |s0.order| && Keyed(s0)
  {
    if n == 0 then Run(s0, true)
    else MonitorStep(MonitorPrefix(s0, plan, n - 1, exited, fault), s0, plan, n - 1, exited, fault)
  }

  /**
   One iteration of the `while True` loop: every entry of a snapshot of the
   registry is polled; `exited` is the set of names whose `poll()` returns an
   exit status.
   */
  function MonitorPass(s0: State, plan: Plan, exited: set<string>, fault: Option<Fault>): Run
    requires Keyed(s0)
  {
    MonitorPrefix(s0, plan, |s0.order|, exited, fault)
  }

  /**
   One step: an entry whose child is still running, or a pass that has already
   raised, is left alone; otherwise the step raises exactly at the fault's
   position, and when it does not, the entry names a fresh child at the ends
   of the tables. Keys and their order never change.
   */
  lemma MonitorStepFacts(r: Run, s0: State, plan: Plan, j: nat, exited: set<string>, fault: Option<Fault>)
    requires j < |s0.order| && Keyed(s0) && s0.order[j] in r.state.processes
    ensures var r', name := MonitorStep(r, s0, plan, j, exited, fault), s0.order[j];
      && r'.state.order == r.state.order
      && r'.state.processes.Keys == r.state.processes.Keys
      && (r'.ok ==> r.ok)
      && (!r.ok || name !in exited ==> r' == r)
      && (r.ok && name in exited ==> (r'.ok <==> !(fault.Some? && fault.value.at == j)))
      && (r.ok && name in exited && r'.ok ==>
            r'.state.processes == r.state.processes[name := Unit(|r.state.host.procs|, |r.state.host.sinks|)])
  {
    var name := s0.order[j];
    if r.ok && name in exited {
      assert r.state.processes[name := Unit(0, 0)].Keys == r.state.processes.Keys;
    }
  }

  /** The exception hits within the first `n` entries: at an exited unit, at the fault's position. */
  predicate Fails(s0: State, n: nat, exited: set<string>, fault: Option<Fault>)
    requires n <= |s0.order|
  {
    fault.Some? && fault.value.at < n && s0.order[fault.value.at] in exited
  }

  /** What a pass did to one unit. */
  datatype Fate = Kept | Restarted | Abandoned

  function FateOf(s0: State, n: nat, exited: set<string>, fault: Option<Fault>, j: nat): Fate
    requires n <= |s0.order| && j < |s0.order|
  {
    if Fails(s0, n, exited, fault) && j > fault.value.at then Kept
    else if Fails(s0, n, exited, fault) && j == fault.value.at then Abandoned
    else if j < n && s0.order[j] in exited then Restarted
    else Kept
  }

  /**
   The unit `u0` of `name` before the pass, `u` after it.
   Kept: the entry and its child and sink are untouched.
   Restarted: the old child is reaped, the old sink closed once, and the entry
   is a fresh running child with the same command and a fresh open sink.
   Abandoned (the restart raised): the entry still names the old, reaped
   child and the old sink, now closed.
   */
  predicate UnitAfter(h0: Host, h: Host, plan: Plan, name: string, u0: Unit, u: Unit, fate: Fate) {
    && u0.proc < |h0.procs| && u0.sink < |h0.sinks| && u0.proc < |h.procs| && u0.sink < |h.sinks|
    && match fate
       case Kept =>
         u == u0 && h.procs[u0.proc] == h0.procs[u0.proc] && h.sinks[u0.sink] == h0.sinks[u0.sink]
       case Restarted =>
         && u.proc >= |h0.procs| && u.sink >= |h0.sinks|
         && Live(h, plan, name, u)
         && h.procs[u.proc].cmd == h0.procs[u0.proc].cmd
         && h.procs[u0.proc] == h0.procs[u0.proc].(exited := true)
         && h.sinks[u0.sink] == h0.sinks[u0.sink].(closeCalls := h0.sinks[u0.sink].closeCalls + 1)
       case Abandoned =>
         && u == u0
         && h.procs[u0.proc] == h0.procs[u0.proc].(exited := true)
         && h.sinks[u0.sink] == h0.sinks[u0.sink].(closeCalls := h0.sinks[u0.sink].closeCalls + 1)
  }

  /** No registered unit of `s0` owns process `i`. */
  ghost predicate UnownedProc(s0: State, i: nat) {
    forall name :: name in s0.processes ==> s0.processes[name].proc != i
  }

  ghost predicate UnownedSink(s0: State, i: nat) {
    forall name :: name in s0.processes ==> s0.processes[name].sink != i
  }

  lemma ValidKeyed(s: State, plan: Plan)
    requires Valid(s, plan)
    ensures Keyed(s)
  {
  }

  /** The order position of a registered name (the order lists each key once). */
  lemma PositionOf(s0: State, plan: Plan, name: string) returns (j: nat)
    requires Valid(s0, plan) && name in s0.processes
    ensures j < |s0.order| && s0.order[j] == name
  {
    assert name in s0.order;
    var j0 :| 0 <= j0 < |s0.order| && s0.order[j0] == name;
    j := j0;
  }

  /** The keys and their order are kept; the pass ends normally unless a restart raises; tables only grow. */
  lemma {:induction false} MonitorShape(s0: State, plan: Plan, n: nat, exited: set<string>, fault: Option<Fault>)
    requires Keyed(s0) && n <= |s0.order|
    ensures var r := MonitorPrefix(s0, plan, n, exited, fault);
      && r.state.order == s0.order
      && r.state.processes.Keys == s0.processes.Keys
      && r.ok == !Fails(s0, n, exited, fault)
      && |s0.host.procs| <= |r.state.host.procs| && |s0.host.sinks| <= |r.state.host.sinks|
  {
    if n > 0 {
      MonitorShape(s0, plan, n - 1, exited, fault);
      var r := MonitorPrefix(s0, plan, n - 1, exited, fault);
      var name := s0.order[n - 1];
      if r.ok && name in exited {
        if fault.Some? && fault.value.at == n - 1 {
          match fault.value.kind
          case OpenFails =>
          case SpawnFails =>
        } else {
          assert name in r.state.processes;
          assert r.state.processes[name := Unit(0, 0)].Keys == r.state.processes.Keys;
        }
      }
    }
  }

  /** An entry the `n`-th step does not reach has the same fate before and after it. */
  lemma FateUnchanged(s0: State, n: nat, exited: set<string>, fault: Option<Fault>, k: nat)
    requires 0 < n <= |s0.order| && k < |s0.order|
    requires Fails(s0, n - 1, exited, fault) || s0.order[n - 1] !in exited || k != n - 1
    ensures FateOf(s0, n, exited, fault, k) == FateOf(s0, n - 1, exited, fault, k)
  {
  }

  /** What restarting entry `j` does to the handles the run already had. */
  lemma MonitorStepHost(s0: State, plan: Plan, j: nat, exited: set<string>, fault: Option<Fault>, r: Run)
    requires Keyed(s0) && j < |s0.order| && r.ok && s0.order[j] in exited
    requires s0.processes[s0.order[j]].proc < |r.state.host.procs| && s0.processes[s0.order[j]].sink < |r.state.host.sinks|
    ensures var h, h' := r.state.host, MonitorStep(r, s0, plan, j, exited, fault).state.host;
      var u0 := s0.processes[s0.order[j]];
      && |h'.procs| >= |h.procs| && |h'.sinks| >= |h.sinks|
      && (forall i :: 0 <= i < |h.procs| && i != u0.proc ==> h'.procs[i] == h.procs[i])
      && (forall i :: 0 <= i < |h.sinks| && i != u0.sink ==> h'.sinks[i] == h.sinks[i])
      && h'.procs[u0.proc] == h.procs[u0.proc].(exited := true)
      && h'.sinks[u0.sink] == h.sinks[u0.sink].(closeCalls := h.sinks[u0.sink].closeCalls + 1)
  {
  }

  /** The restarted entry itself: abandoned when its restart raises, live again otherwise. */
  lemma MonitorUnitSelf(s0: State, plan: Plan, n: nat, exited: set<string>, fault: Option<Fault>, r: Run)
    requires Keyed(s0) && 0 < n <= |s0.order|
    requires r.ok && s0.order[n - 1] in exited && !Fails(s0, n - 1, exited, fault)
    requires r.state.processes.Keys == s0.processes.Keys
    requires |s0.host.procs| <= |r.state.host.procs| && |s0.host.sinks| <= |r.state.host.sinks|
    requires UnitAfter(s0.host, r.state.host, plan, s0.order[n - 1], s0.processes[s0.order[n - 1]],
                       r.state.processes[s0.order[n - 1]], Kept)
    requires Live(s0.host, plan, s0.order[n - 1], s0.processes[s0.order[n - 1]])
    requires var h, h' := r.state.host, MonitorStep(r, s0, plan, n - 1, exited, fault).state.host;
      var u0 := s0.processes[s0.order[n - 1]];
      && |h'.procs| >= |h.procs| && |h'.sinks| >= |h.sinks|
      && h'.procs[u0.proc] == h.procs[u0.proc].(exited := true)
      && h'.sinks[u0.sink] == h.sinks[u0.sink].(closeCalls := h.sinks[u0.sink].closeCalls + 1)
    ensures var r' := MonitorStep(r, s0, plan, n - 1, exited, fault);
      && s0.order[n - 1] in r'.state.processes
      && UnitAfter(s0.host, r'.state.host, plan, s0.order[n - 1], s0.processes[s0.order[n - 1]],
                   r'.state.processes[s0.order[n - 1]], FateOf(s0, n, exited, fault, n - 1))
  {
    var j := n - 1;
    var nj := s0.order[j];
    var r' := MonitorStep(r, s0, plan, j, exited, fault);
    var h, h' := r.state.host, r'.state.host;
    if fault.Some? && fault.value.at == j {
      assert Fails(s0, n, exited, fault);
      assert FateOf(s0, n, exited, fault, j) == Abandoned;
      assert r'.state.processes == r.state.processes;
    } else {
      assert !Fails(s0, n, exited, fault);
      assert FateOf(s0, n, exited, fault, j) == Restarted;
      var u := Unit(|h.procs|, |h.sinks|);
      assert r'.state.processes[nj] == u;
      assert Live(h', plan, nj, u);
    }
  }

  /** Another entry `k` keeps its fate and its handles when entry `n - 1` is restarted. */
  lemma MonitorUnitOther(s0: State, plan: Plan, n: nat, exited: set<string>, fault: Option<Fault>, k: nat, r: Run)
    requires Valid(s0, plan) && Keyed(s0) && 0 < n <= |s0.order| && k < |s0.order| && k != n - 1
    requires r.ok && s0.order[n - 1] in exited && !Fails(s0, n - 1, exited, fault)
    requires r.state.processes.Keys == s0.processes.Keys
    requires UnitAfter(s0.host, r.state.host, plan, s0.order[k], s0.processes[s0.order[k]],
                       r.state.processes[s0.order[k]], FateOf(s0, n - 1, exited, fault, k))
    requires var h, h' := r.state.host, MonitorStep(r, s0, plan, n - 1, exited, fault).state.host;
      var u0 := s0.processes[s0.order[n - 1]];
      && |h'.procs| >= |h.procs| && |h'.sinks| >= |h.sinks|
      && (forall i :: 0 <= i < |h.procs| && i != u0.proc ==> h'.procs[i] == h.procs[i])
      && (forall i :: 0 <= i < |h.sinks| && i != u0.sink ==> h'.sinks[i] == h.sinks[i])
    ensures var r' := MonitorStep(r, s0, plan, n - 1, exited, fault);
      && s0.order[k] in r'.state.processes
      && UnitAfter(s0.host, r'.state.host, plan, s0.order[k], s0.processes[s0.order[k]],
                   r'.state.processes[s0.order[k]], FateOf(s0, n, exited, fault, k))
  {
    var nj, nk := s0.order[n - 1], s0.order[k];
    FateUnchanged(s0, n, exited, fault, k);
    assert nk != nj;
    assert s0.processes[nk].proc != s0.processes[nj].proc && s0.processes[nk].sink != s0.processes[nj].sink;
    assert MonitorStep(r, s0, plan, n - 1, exited, fault).state.processes[nk] == r.state.processes[nk];
  }

  lemma MonitorUnitStep(s0: State, plan: Plan, n: nat, exited: set<string>, fault: Option<Fault>, k: nat, r: Run)
    requires Valid(s0, plan) && Keyed(s0) && 0 < n <= |s0.order| && k < |s0.order|
    requires r.ok && s0.order[n - 1] in exited && !Fails(s0, n - 1, exited, fault)
    requires r.state.processes.Keys == s0.processes.Keys
    requires |s0.host.procs| <= |r.state.host.procs| && |s0.host.sinks| <= |r.state.host.sinks|
    requires UnitAfter(s0.host, r.state.host, plan, s0.order[k], s0.processes[s0.order[k]],
                       r.state.processes[s0.order[k]], FateOf(s0, n - 1, exited, fault, k))
    requires UnitAfter(s0.host, r.state.host, plan, s0.order[n - 1], s0.processes[s0.order[n - 1]],
                       r.state.processes[s0.order[n - 1]], FateOf(s0, n - 1, exited, fault, n - 1))
    ensures var r' := MonitorStep(r, s0, plan, n - 1, exited, fault);
      && s0.order[k] in r'.state.processes
      && UnitAfter(s0.host, r'.state.host, plan, s0.order[k], s0.processes[s0.order[k]],
                   r'.state.processes[s0.order[k]], FateOf(s0, n, exited, fault, k))
  {
    var j := n - 1;
    assert FateOf(s0, j, exited, fault, j) == Kept;
    assert Live(s0.host, plan, s0.order[j], s0.processes[s0.order[j]]);
    MonitorStepHost(s0, plan, j, exited, fault, r);
    if k == j {
      MonitorUnitSelf(s0, plan, n, exited, fault, r);
    } else {
      MonitorUnitOther(s0, plan, n, exited, fault, k, r);
    }
  }

  lemma {:induction false} MonitorUnit(s0: State, plan: Plan, n: nat, exited: set<string>, fault: Option<Fault>, k: nat)
    requires Valid(s0, plan) && n <= |s0.order| && k < |s0.order|
    ensures Keyed(s0)
    ensures s0.order[k] in MonitorPrefix(s0, plan, n, exited, fault).state.processes
    ensures var r := MonitorPrefix(s0, plan, n, exited, fault);
      UnitAfter(s0.host, r.state.host, plan, s0.order[k], s0.processes[s0.order[k]],
                r.state.processes[s0.order[k]], FateOf(s0, n, exited, fault, k))
  {
    ValidKeyed(s0, plan);
    MonitorShape(s0, plan, n, exited, fault);
    if n == 0 {
      assert Live(s0.host, plan, s0.order[k], s0.processes[s0.order[k]]);
    } else {
      var j := n - 1;
      var r := MonitorPrefix(s0, plan, j, exited, fault);
      MonitorShape(s0, plan, j, exited, fault);
      MonitorUnit(s0, plan, j, exited, fault, k);
      if !r.ok || s0.order[j] !in exited {
        FateUnchanged(s0, n, exited, fault, k);
      } else {
        MonitorUnit(s0, plan, j, exited, fault, j);
        MonitorUnitStep(s0, plan, n, exited, fault, k, r);
      }
    }
  }

  /** Once a restart has raised, the rest of the snapshot is not examined. */
  lemma {:induction false} MonitorStuck(s0: State, plan: Plan, n: nat, m: nat, exited: set<string>, fault: Option<Fault>)
    requires Keyed(s0) && n <= m <= |s0.order| && !MonitorPrefix(s0, plan, n, exited, fault).ok
    ensures MonitorPrefix(s0, plan, m, exited, fault) == MonitorPrefix(s0, plan, n, exited, fault)
    decreases m
  {
    if m > n {
      MonitorStuck(s0, plan, n, m - 1, exited, fault);
    }
  }

  /** A pass that returns normally keeps the registry invariant. */
  lemma {:induction false} MonitorValid(s0: State, plan: Plan, n: nat, exited: set<string>, fault: Option<Fault>)
    requires Valid(s0, plan) && n <= |s0.order|
    ensures Keyed(s0)
    ensures MonitorPrefix(s0, plan, n, exited, fault).ok ==> Valid(MonitorPrefix(s0, plan, n, exited, fault).state, plan)
  {
    ValidKeyed(s0, plan);
    if n > 0 {
      var j := n - 1;
      var name := s0.order[j];
      var r := MonitorPrefix(s0, plan, j, exited, fault);
      MonitorValid(s0, plan, j, exited, fault);
      if r.ok && name in exited && !FaultAt(fault, j, OpenFails) && !FaultAt(fault, j, SpawnFails) {
        MonitorShape(s0, plan, j, exited, fault);
        MonitorUnit(s0, plan, j, exited, fault, j);
        var u0 := s0.processes[name];
        assert FateOf(s0, j, exited, fault, j) == Kept;
        ReplaceValid(r.state, plan, name, u0, MonitorPrefix(s0, plan, n, exited, fault).state.host);
      }
    }
  }

  /** Handles no entry of the snapshot refers to are never touched. */
  lemma {:induction false} MonitorFrame(s0: State, plan: Plan, n: nat, exited: set<string>, fault: Option<Fault>, i: nat)
    requires Keyed(s0) && n <= |s0.order|
    ensures var h := MonitorPrefix(s0, plan, n, exited, fault).state.host;
      && (i < |s0.host.procs| && UnownedProc(s0, i) ==> i < |h.procs| && h.procs[i] == s0.host.procs[i])
      && (i < |s0.host.sinks| && UnownedSink(s0, i) ==> i < |h.sinks| && h.sinks[i] == s0.host.sinks[i])
  {
    if n > 0 {
      var name := s0.order[n - 1];
      MonitorFrame(s0, plan, n - 1, exited, fault, i);
      MonitorShape(s0, plan, n - 1, exited, fault);
      assert name in s0.processes;
      assert UnownedProc(s0, i) ==> s0.processes[name].proc != i;
      assert UnownedSink(s0, i) ==> s0.processes[name].sink != i;
    }
  }

  /**
   A monitor pass never adds or removes a key and keeps the invariant when it
   returns normally. Each entry of the snapshot meets its fate: a unit whose
   child is still running is left as it was; a unit whose child exited is
   restarted: its old sink is closed exactly once, and it gets a freshly
   spawned child running the same command as before, with a freshly opened
   sink. When a restart raises, the pass ends there with that unit abandoned
   (its child reaped, its sink closed) and the later ones untouched. Handles
   no entry refers to are not touched.
   */
  lemma MonitorPassFacts(s0: State, plan: Plan, exited: set<string>, fault: Option<Fault>)
    requires Valid(s0, plan)
    ensures Keyed(s0)
    ensures var r := MonitorPass(s0, plan, exited, fault);
      && r.state.processes.Keys == s0.processes.Keys
      && r.state.order == s0.order
      && (r.ok <==> !Fails(s0, |s0.order|, exited, fault))
      && (r.ok ==> Valid(r.state, plan))
      && (forall j :: 0 <= j < |s0.order| ==>
            UnitAfter(s0.host, r.state.host, plan, s0.order[j], s0.processes[s0.order[j]],
                      r.state.processes[s0.order[j]], FateOf(s0, |s0.order|, exited, fault, j)))
      && (forall name :: name in s0.processes && name !in exited ==>
            r.state.processes[name] == s0.processes[name])
      && (r.ok ==> forall name :: name in s0.processes && name in exited ==>
            var u0, u := s0.processes[name], r.state.processes[name];
            && u.proc >= |s0.host.procs| && u.sink >= |s0.host.sinks|
            && r.state.host.procs[u.proc].cmd == s0.host.procs[u0.proc].cmd
            && r.state.host.procs[u0.proc].exited
            && r.state.host.sinks[u0.sink].closeCalls == 1)
      && |s0.host.procs| <= |r.state.host.procs| && |s0.host.sinks| <= |r.state.host.sinks|
      && (forall i :: 0 <= i < |s0.host.procs| && UnownedProc(s0, i) ==> r.state.host.procs[i] == s0.host.procs[i])
      && (forall i :: 0 <= i < |s0.host.sinks| && UnownedSink(s0, i) ==> r.state.host.sinks[i] == s0.host.sinks[i])
  {
    ValidKeyed(s0, plan);
    var n := |s0.order|;
    MonitorShape(s0, plan, n, exited, fault);
    MonitorValid(s0, plan, n, exited, fault);
    var r := MonitorPass(s0, plan, exited, fault);
    forall j | 0 <= j < n
      ensures UnitAfter(s0.host, r.state.host, plan, s0.order[j], s0.processes[s0.order[j]],
                        r.state.processes[s0.order[j]], FateOf(s0, n, exited, fault, j))
    {
      MonitorUnit(s0, plan, n, exited, fault, j);
    }
    forall name | name in s0.processes
      ensures name !in exited ==> r.state.processes[name] == s0.processes[name]
      ensures r.ok && name in exited ==>
            var u0, u := s0.processes[name], r.state.processes[name];
            && u.proc >= |s0.host.procs| && u.sink >= |s0.host.sinks|
            && r.state.host.procs[u.proc].cmd == s0.host.procs[u0.proc].cmd
            && r.state.host.procs[u0.proc].exited
            && r.state.host.sinks[u0.sink].closeCalls == 1
    {
      var j := PositionOf(s0, plan, name);
      assert Live(s0.host, plan, name, s0.processes[name]);
      MonitorUnit(s0, plan, n, exited, fault, j);
    }
    forall i | 0 <= i < |s0.host.procs| && UnownedProc(s0, i) ensures r.state.host.procs[i] == s0.host.procs[i] {
      MonitorFrame(s0, plan, n, exited, fault, i);
    }
    forall i | 0 <= i < |s0.host.sinks| && UnownedSink(s0, i) ensures r.state.host.sinks[i] == s0.host.sinks[i] {
      MonitorFrame(s0, plan, n, exited, fault, i);
    }
  }

  // ----- stop_all -----

  /** The first `wait` returned, or the process was killed and the second `wait` returned. */
  predicate Confirmed(sc: StopScript) {
    !sc.terminateRaises &&
    (sc.firstWait == Returned || (sc.firstWait == TimedOut && !sc.killRaises && sc.secondWait == Returned))
  }

  /** `kill()` is called exactly when `terminate()` returned and the first `wait` timed out. */
  predicate KillIssued(sc: StopScript) {
    !sc.terminateRaises && sc.firstWait == TimedOut
  }

  /** What `stop_all` leaves of a child it stopped. */
  function Stopped(p: Proc, sc: StopScript): Proc {
    p.(terminateSent := true, killSent := p.killSent || KillIssued(sc), exited := p.exited || Confirmed(sc))
  }

  /**
   One iteration of `stop_all`'s loop on the unit `u`: `terminate()`, then
   `wait`, then `kill()` and a second `wait` after a timeout; whatever
   raises, the sink is closed in the `finally`. `Supervisor.Service.StopOne`
   performs these calls one by one.
   */
  function StopUnit(h: Host, u: Unit, sc: StopScript): (r: Host)
    requires u.proc < |h.procs| && u.sink < |h.sinks|
    ensures |r.procs| == |h.procs| && |r.sinks| == |h.sinks|
    ensures forall i :: 0 <= i < |h.procs| && i != u.proc ==> r.procs[i] == h.procs[i]
    ensures forall i :: 0 <= i < |h.sinks| && i != u.sink ==> r.sinks[i] == h.sinks[i]
    ensures r.procs[u.proc].terminateSent
    ensures r.procs[u.proc].killSent <==> h.procs[u.proc].killSent || KillIssued(sc)
    ensures r.procs[u.proc].exited <==> h.procs[u.proc].exited || Confirmed(sc)
    ensures r.procs[u.proc].cmd == h.procs[u.proc].cmd && r.procs[u.proc].stderr == h.procs[u.proc].stderr
    ensures r.sinks[u.sink] == h.sinks[u.sink].(closeCalls := h.sinks[u.sink].closeCalls + 1)
  {
    Host(h.procs[u.proc := Stopped(h.procs[u.proc], sc)],
         h.sinks[u.sink := h.sinks[u.sink].(closeCalls := h.sinks[u.sink].closeCalls + 1)])
  }

  /** Every registered unit's positions lie inside the host table. */
  predicate InRange(s: State) {
    forall k :: k in s.processes ==> s.processes[k].proc < |s.host.procs| && s.processes[k].sink < |s.host.sinks|
  }

  lemma ValidInRange(s: State, plan: Plan)
    requires Valid(s, plan)
    ensures Keyed(s) && InRange(s)
  {
    forall k | k in s.processes ensures s.processes[k].proc < |s.host.procs| && s.processes[k].sink < |s.host.sinks| {
      assert Live(s.host, plan, k, s.processes[k]);
    }
  }

  /** The first `n` iterations of `stop_all`'s loop; `script` gives each unit's outcomes. */
  function StopPrefix(s0: State, n: nat, script: string -> StopScript): (h: Host)
    requires n <= |s0.order| && Keyed(s0) && InRange(s0)
    ensures |h.procs| == |s0.host.procs| && |h.sinks| == |s0.host.sinks|
  {
    if n == 0 then s0.host
    else
      var name := s0.order[n - 1];
      StopUnit(StopPrefix(s0, n - 1, script), s0.processes[name], script(name))
  }

  /** `stop_all`: every unit is stopped, then `processes.clear()`. */
  function StopAll(s0: State, script: string -> StopScript): State
    requires Keyed(s0) && InRange(s0)
  {
    State(map[], [], StopPrefix(s0, |s0.order|, script))
  }

  /** The unit at position `j` after the first `n` iterations: stopped if `j < n`, untouched otherwise. */
  lemma {:induction false} StopUnitAt(s0: State, n: nat, script: string -> StopScript, j: nat)
    requires Keyed(s0) && InRange(s0) && Distinct(s0.order) && Separate(s0)
    requires n <= |s0.order| && j < |s0.order|
    ensures var h0, h := s0.host, StopPrefix(s0, n, script);
      var name := s0.order[j];
      var u := s0.processes[name];
      if j < n then
        h.procs[u.proc] == Stopped(h0.procs[u.proc], script(name))
        && h.sinks[u.sink] == h0.sinks[u.sink].(closeCalls := h0.sinks[u.sink].closeCalls + 1)
      else h.procs[u.proc] == h0.procs[u.proc] && h.sinks[u.sink] == h0.sinks[u.sink]
  {
    if n > 0 {
      StopUnitAt(s0, n - 1, script, j);
      var name, last := s0.order[j], s0.order[n - 1];
      var h, ul := StopPrefix(s0, n - 1, script), s0.processes[last];
      var h' := StopUnit(h, ul, script(last));
      assert StopPrefix(s0, n, script) == h';
      if j != n - 1 {
        assert name != last;
        assert s0.processes[name].proc != ul.proc;
        assert s0.processes[name].sink != ul.sink;
      } else {
        assert h'.procs[ul.proc] == Stopped(h.procs[ul.proc], script(last));
      }
    }
  }

  /** Handles no registered unit refers to are untouched by the first `n` iterations. */
  lemma {:induction false} StopFrame(s0: State, n: nat, script: string -> StopScript, i: nat)
    requires Keyed(s0) && InRange(s0) && n <= |s0.order|
    ensures var h0, h := s0.host, StopPrefix(s0, n, script);
      && (i < |h0.procs| && UnownedProc(s0, i) ==> h.procs[i] == h0.procs[i])
      && (i < |h0.sinks| && UnownedSink(s0, i) ==> h.sinks[i] == h0.sinks[i])
  {
    if n > 0 {
      StopFrame(s0, n - 1, script, i);
      var last := s0.order[n - 1];
      assert last in s0.processes;
      assert UnownedProc(s0, i) ==> s0.processes[last].proc != i;
      assert UnownedSink(s0, i) ==> s0.processes[last].sink != i;
    }
  }

  /**
   `stop_all` leaves the registry empty, spawns and opens nothing, sends
   `terminate` to every registered child, issues `kill` exactly to those whose
   first `wait` timed out after a successful `terminate`, and closes every
   registered sink exactly once, whatever raised; handles the registry does
   not refer to are untouched.
   */
  lemma StopAllFacts(s0: State, plan: Plan, script: string -> StopScript)
    requires Valid(s0, plan)
    ensures Keyed(s0) && InRange(s0)
    ensures var s := StopAll(s0, script);
      && s.processes == map[] && s.order == []
      && |s.host.procs| == |s0.host.procs| && |s.host.sinks| == |s0.host.sinks|
      && (forall name :: name in s0.processes ==>
            var u := s0.processes[name];
            && s.host.procs[u.proc].terminateSent
            && (s.host.procs[u.proc].killSent <==> KillIssued(script(name)))
            && (s.host.procs[u.proc].exited <==> Confirmed(script(name)))
            && !s.host.sinks[u.sink].IsOpen()
            && s.host.sinks[u.sink].closeCalls == 1)
      && (forall i :: 0 <= i < |s0.host.procs| && UnownedProc(s0, i) ==> s.host.procs[i] == s0.host.procs[i])
      && (forall i :: 0 <= i < |s0.host.sinks| && UnownedSink(s0, i) ==> s.host.sinks[i] == s0.host.sinks[i])
  {
    ValidInRange(s0, plan);
    var s := StopAll(s0, script);
    forall name | name in s0.processes
      ensures var u := s0.processes[name];
            && s.host.procs[u.proc].terminateSent
            && (s.host.procs[u.proc].killSent <==> KillIssued(script(name)))
            && (s.host.procs[u.proc].exited <==> Confirmed(script(name)))
            && !s.host.sinks[u.sink].IsOpen()
            && s.host.sinks[u.sink].closeCalls == 1
    {
      var j := PositionOf(s0, plan, name);
      assert Live(s0.host, plan, name, s0.processes[name]);
      StopUnitAt(s0, |s0.order|, script, j);
    }
    forall i | 0 <= i < |s0.host.procs| && UnownedProc(s0, i) ensures s.host.procs[i] == s0.host.procs[i] {
      StopFrame(s0, |s0.order|, script, i);
    }
    forall i | 0 <= i < |s0.host.sinks| && UnownedSink(s0, i) ensures s.host.sinks[i] == s0.host.sinks[i] {
      StopFrame(s0, |s0.order|, script, i);
    }
  }
}
