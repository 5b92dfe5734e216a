/**
 The service as an object: the settings it read at start-up, the module-level
 dict `processes` (with the order in which it iterates) and what it has asked
 of the operating system. Each method runs the loop of the corresponding
 function in `tcpdump_service.py` statement by statement and is proved to end
 in the state the value model in `Registry` prescribes.
 */
module Supervisor {
  import opened Wrappers
  import opened Command
  import opened Registry

  class Service {
    const settings: Settings
    /** `PlanOf(settings)`: what `build_cmd` and the log path give for each interface. */
    const plan: Plan
    var processes: map<string, Unit>
    var order: seq<string>
    var host: Host

    function Snapshot(): State
      reads this
    {
      State(processes, order, host)
    }

    /** The registry invariant of `Registry.Valid` holds for the current state. */
    ghost predicate Valid()
      reads this
    {
      Registry.Valid(Snapshot(), plan)
    }

    /** The module is loaded: the settings are read and `processes = {}`. */
    constructor (cfg: Settings, h0: Host)
      ensures settings == cfg && plan == PlanOf(cfg)
      ensures processes == map[] && order == [] && host == h0
      ensures Valid()
    {
      settings := cfg;
      plan := PlanOf(cfg);
      processes := map[];
      order := [];
      host := h0;
    }

    /**
     One iteration of `start_all`'s loop, for `plan.interfaces[i]`: open the
     log, spawn the capture tool with it as standard error, register the pair
     (a pair it replaces has its file closed by the finalizer). `ok` is false
     when `open` or `Popen` raises.
     */
    method StartOne(i: nat, fault: Option<Fault>) returns (ok: bool)
      requires i < |plan.interfaces|
      modifies this
      ensures Run(Snapshot(), ok) == StartStep(Run(old(Snapshot()), true), plan, i, fault)
    {
      var iface := plan.interfaces[i];
      var cmd := plan.command(iface);
      var stderrPath := plan.logPath(iface);
      if FaultAt(fault, i, OpenFails) {
        return false;
      }
      var sink := |host.sinks|;
      host := OpenSink(host, stderrPath);
      if FaultAt(fault, i, SpawnFails) {
        return false;
      }
      var proc := |host.procs|;
      host := Spawn(host, cmd, sink);
      if iface in processes {
        // the replaced pair loses its last reference, so its file object is finalized
        host := Release(host, processes[iface].sink);
      } else {
        order := order + [iface];
      }
      processes := processes[iface := Unit(proc, sink)];
      ok := true;
    }

    /**
     The loop of `start_all()`: every configured interface in turn; the
     first exception ends the loop and propagates (`ok` is false).
     */
    method StartLoop(fault: Option<Fault>) returns (ok: bool)
      modifies this
      ensures Run(Snapshot(), ok) == Registry.StartAll(old(Snapshot()), plan, fault)
    {
      ghost var s0 := Snapshot();
      var i := 0;
      ok := true;
      while i < |plan.interfaces|
        invariant 0 <= i <= |plan.interfaces|
        invariant Run(Snapshot(), true) == StartPrefix(s0, plan, i, fault)
      {
        ok := StartOne(i, fault);
        if !ok {
          StartStuck(s0, plan, i + 1, |plan.interfaces|, fault);
          break;
        }
        i := i + 1;
      }
    }

    /**
     `start_all()` on a valid registry: the registry stays valid and keeps
     every interface it already held; it returns normally exactly when no
     `open` or `Popen` raises, and then every configured interface is
     registered.
     */
    method StartAll(fault: Option<Fault>) returns (ok: bool)
      requires Valid()
      modifies this
      ensures Run(Snapshot(), ok) == Registry.StartAll(old(Snapshot()), plan, fault)
      ensures Valid()
      ensures old(processes).Keys <= processes.Keys
      ensures ok <==> fault.None? || fault.value.at >= |plan.interfaces|
      ensures ok ==> forall k :: 0 <= k < |plan.interfaces| ==> plan.interfaces[k] in processes
    {
      ghost var s0 := Snapshot();
      ok := StartLoop(fault);
      StartValid(s0, plan, |plan.interfaces|, fault);
      StartAllFacts(s0, plan, fault);
    }

    /**
     The body of the `if ret is not None` branch for entry `j` of the
     snapshot `s0`, whose child has exited: close its sink, open the log
     again, spawn a new child and register the new pair. `ok` is false when
     `open` or `Popen` raises.
     */
    method Restart(ghost s0: State, j: nat, iface: string, u: Unit, exited: set<string>, fault: Option<Fault>) returns (ok: bool)
      requires Keyed(s0) && j < |s0.order| && s0.order[j] == iface && s0.processes[iface] == u && iface in exited
      modifies this
      ensures Run(Snapshot(), ok) == MonitorStep(Run(old(Snapshot()), true), s0, plan, j, exited, fault)
    {
      host := Reap(host, u.proc);
      host := CloseSink(host, u.sink);
      var cmd := plan.command(iface);
      if FaultAt(fault, j, OpenFails) {
        return false;
      }
      var sink := |host.sinks|;
      host := OpenSink(host, plan.logPath(iface));
      if FaultAt(fault, j, SpawnFails) {
        return false;
      }
      var proc := |host.procs|;
      host := Spawn(host, cmd, sink);
      processes := processes[iface := Unit(proc, sink)];
      ok := true;
    }

    /**
     The loop of one monitor pass: every entry of a snapshot of `processes`
     is polled (`exited` holds the names whose child has exited) and an
     exited one is restarted. An exception from `open` or `Popen` ends the
     pass (`ok` is false).
     */
    method MonitorLoop(exited: set<string>, fault: Option<Fault>) returns (ok: bool)
      requires Keyed(Snapshot())
      modifies this
      ensures Run(Snapshot(), ok) == Registry.MonitorPass(old(Snapshot()), plan, exited, fault)
    {
      ghost var s0 := Snapshot();
      var items := order;
      var units := processes;
      var j := 0;
      ok := true;
      while j < |items|
        invariant 0 <= j <= |items| && items == s0.order && units == s0.processes
        invariant Run(Snapshot(), true) == MonitorPrefix(s0, plan, j, exited, fault)
      {
        var iface := items[j];
        if iface in exited {
          ok := Restart(s0, j, iface, units[iface], exited, fault);
          if !ok {
            MonitorStuck(s0, plan, j + 1, |items|, exited, fault);
            break;
          }
        }
        j := j + 1;
      }
    }

    /**
     One iteration of the monitor loop on a valid registry: the pass keeps
     the names and their order, and a pass that completes leaves the
     registry valid.
     */
    method MonitorPass(exited: set<string>, fault: Option<Fault>) returns (ok: bool)
      requires Valid()
      modifies this
      ensures Keyed(old(Snapshot()))
      ensures Run(Snapshot(), ok) == Registry.MonitorPass(old(Snapshot()), plan, exited, fault)
      ensures ok ==> Valid()
      ensures processes.Keys == old(processes).Keys && order == old(order)
    {
      ghost var s0 := Snapshot();
      ValidKeyed(s0, plan);
      ok := MonitorLoop(exited, fault);
      MonitorShape(s0, plan, |s0.order|, exited, fault);
      MonitorValid(s0, plan, |s0.order|, exited, fault);
    }

    /**
     One iteration of `stop_all`'s loop on the unit `u`, whose outcomes
     `sc` gives: `terminate()`, `wait(timeout=5)`, on a timeout `kill()` and
     a second `wait`; an exception skips the rest of the `try`; the sink is
     closed in the `finally`.
     */
    method StopOne(u: Unit, sc: StopScript)
      requires u.proc < |host.procs| && u.sink < |host.sinks|
      modifies this
      ensures host == StopUnit(old(host), u, sc)
      ensures processes == old(processes) && order == old(order)
    {
      host := Terminate(host, u.proc);
      if !sc.terminateRaises {
        match sc.firstWait
        case Returned =>
          host := Reap(host, u.proc);
        case WaitRaised =>
        case TimedOut =>
          host := Kill(host, u.proc);
          if !sc.killRaises && sc.secondWait == Returned {
            host := Reap(host, u.proc);
          }
      }
      host := CloseSink(host, u.sink);
    }

    /** The loop of `stop_all()`: every registered unit is stopped in the dict's order. */
    method StopUnits(script: string -> StopScript)
      requires Keyed(Snapshot()) && InRange(Snapshot())
      modifies this
      ensures host == StopPrefix(old(Snapshot()), |old(order)|, script)
      ensures processes == old(processes) && order == old(order)
    {
      ghost var s0 := Snapshot();
      var items := order;
      var j := 0;
      while j < |items|
        invariant 0 <= j <= |items| && items == order == s0.order && processes == s0.processes
        invariant host == StopPrefix(s0, j, script)
      {
        var iface := items[j];
        StopOne(processes[iface], script(iface));
        j := j + 1;
      }
    }

    /**
     `stop_all()`: every registered unit is stopped in the dict's order,
     then `processes.clear()`.
     */
    method StopAll(script: string -> StopScript)
      requires Valid()
      modifies this
      ensures Keyed(old(Snapshot())) && InRange(old(Snapshot()))
      ensures Snapshot() == Registry.StopAll(old(Snapshot()), script)
      ensures processes == map[] && order == [] && Valid()
    {
      ValidInRange(Snapshot(), plan);
      StopUnits(script);
      processes := map[];
      order := [];
      EmptyValid(host, plan);
      assert Snapshot() == State(map[], [], host);
    }
  }
}
