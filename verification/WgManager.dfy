/** internal/supervisor/wg.go: starting and stopping the tunnel interface, with the
    wireguard-go fallback and the handle the manager keeps on it. */
module WgManager {
  import opened Options
  import opened Text
  import Decimal
  import Ipv4
  import WgConfig
  import WgMeta
  import opened Kernel

  const DEFAULT_MTU := 1320

  // The manager's fields: an interface name and an MTU, 0 when unset.
  datatype Setup = Setup(iface: string, mtu: int)

  // What Start reads from outside: the configuration file, and whether the stripped copy
  // could be written.
  datatype StartInputs = StartInputs(config: Option<string>, lib: WgConfig.Lib, tempOk: bool)

  predicate IsMissingInterfaceOutput(output: string) {
    var lower := ToLower(output);
    Contains(lower, "cannot find device") || Contains(lower, "does not exist") || Contains(lower, "no such device")
  }

  function EffectiveMTU(setup: Setup, meta: WgConfig.ConfigMeta): int {
    if meta.interfaceMTU != 0 then meta.interfaceMTU
    else if setup.mtu == 0 then DEFAULT_MTU
    else setup.mtu
  }

  // ------------------------------------------------------------- specification

  datatype State = State(w: World, process: Option<nat>)

  datatype Result = Ok | Refused | Failed

  // Refused: an error before the interface was touched. Failed: one in or after
  // ensureInterface.
  datatype Run = Run(s: State, result: Result)

  function KillRun(env: Env, s: State): Run {
    match s.process
    case None => Run(s, Ok)
    case Some(pid) =>
      var killed := Exec(env, s.w, Kill(pid));
      Run(State(killed.w, None), if killed.reply.ok then Ok else Failed)
  }

  function EnsureRun(env: Env, setup: Setup, s: State): Run {
    var show := Exec(env, s.w, LinkShow(setup.iface));
    if show.reply.ok then Run(s.(w := show.w), Ok)
    else
      var add := Exec(env, show.w, LinkAdd(setup.iface));
      if add.reply.ok || s.process.Some? then Run(s.(w := add.w), Ok)
      else LaunchRun(env, setup, add.w)
  }

  function LaunchRun(env: Env, setup: Setup, w: World): Run {
    var launch := Exec(env, w, Launch(setup.iface));
    if !launch.reply.ok then Run(State(launch.w, None), Failed)
    else
      var ready := Exec(env, launch.w, WaitReady(setup.iface));
      if ready.reply.ok then Run(State(ready.w, Some(w.launched)), Ok)
      else Run(KillRun(env, State(ready.w, Some(w.launched))).s, Failed)
  }

  // A command of Start after which a failure kills the process.
  function StepOrKill(env: Env, s: State, cmd: Command): Run {
    var step := Exec(env, s.w, cmd);
    if step.reply.ok then Run(s.(w := step.w), Ok) else Run(KillRun(env, s.(w := step.w)).s, Failed)
  }

  function ConfigureRun(env: Env, setup: Setup, s: State, config: string, meta: WgConfig.ConfigMeta): Run {
    var r1 := StepOrKill(env, s, SetConf(setup.iface, WgConfig.Setconf(config)));
    if !r1.result.Ok? then r1
    else
      var r2 := if meta.interfaceAddress == "" then r1
                else StepOrKill(env, r1.s, AddrReplace(setup.iface, meta.interfaceAddress));
      if !r2.result.Ok? then r2
      else StepOrKill(env, r2.s, LinkUp(setup.iface, EffectiveMTU(setup, meta)))
  }

  function StartRun(env: Env, setup: Setup, s: State, inputs: StartInputs): Run {
    if inputs.config.None? then Run(s, Refused)
    else
      var v := WgConfig.Validate(inputs.lib, inputs.config.value);
      if v.error.Some? || !inputs.tempOk then Run(s, Refused)
      else
        var r := EnsureRun(env, setup, s);
        if !r.result.Ok? then r
        else ConfigureRun(env, setup, r.s, inputs.config.value, v.meta)
  }

  function StopRun(env: Env, setup: Setup, s: State): Run {
    var deleted := Exec(env, s.w, LinkDelete(setup.iface));
    var killed := KillRun(env, s.(w := deleted.w));
    Run(killed.s,
        if !killed.result.Ok? then Failed
        else if !deleted.reply.ok && !IsMissingInterfaceOutput(deleted.reply.output) then Failed
        else Ok)
  }

  function RestartRun(env: Env, setup: Setup, s: State, inputs: StartInputs): Run {
    var stopped := StopRun(env, setup, s);
    var started := StartRun(env, setup, stopped.s, inputs);
    Run(started.s, if !stopped.result.Ok? then stopped.result else started.result)
  }

  // ------------------------------------------------------------- the manager

  class WGProcessManager {
    const machine: Machine
    const setup: Setup
    var process: Option<nat>

    constructor (m: Machine, setup0: Setup)
      ensures machine == m && setup == setup0 && process == None
    {
      machine, setup, process := m, setup0, None;
    }

    function Snapshot(): State
      reads this, machine
    {
      State(machine.w, process)
    }

    method KillLocked() returns (result: Result)
      modifies this, machine
      ensures Run(Snapshot(), result) == KillRun(machine.env, old(Snapshot()))
    {
      if process == None {
        return Ok;
      }
      var reply := machine.Run(Kill(process.value));
      process := None;
      result := if reply.ok then Ok else Failed;
    }

    method EnsureInterface() returns (result: Result)
      modifies this, machine
      ensures Run(Snapshot(), result) == EnsureRun(machine.env, setup, old(Snapshot()))
    {
      hide Exec, Replay;
      var show := machine.Run(LinkShow(setup.iface));
      if show.ok {
        return Ok;
      }
      var add := machine.Run(LinkAdd(setup.iface));
      if add.ok {
        return Ok;
      }
      if process != None {
        return Ok;
      }
      var pid := machine.w.launched;
      var launch := machine.Run(Launch(setup.iface));
      if !launch.ok {
        return Failed;
      }
      process := Some(pid);
      var ready := machine.Run(WaitReady(setup.iface));
      if !ready.ok {
        var _ := KillLocked();
        return Failed;
      }
      result := Ok;
    }

    method Start(inputs: StartInputs) returns (result: Result)
      modifies this, machine
      ensures Run(Snapshot(), result) == StartRun(machine.env, setup, old(Snapshot()), inputs)
    {
      hide Exec, EnsureRun, KillRun, WgConfig.Setconf;
      if inputs.config.None? {
        return Refused;
      }
      var data := inputs.config.value;
      var meta, invalid := WgConfig.ValidateConfig(inputs.lib, data);
      if invalid.Some? {
        return Refused;
      }
      hide WgConfig.Validate;
      var stripped := WgConfig.SetconfConfig(data);
      if !inputs.tempOk {
        return Refused;
      }
      result := EnsureInterface();
      if !result.Ok? {
        return;
      }
      var setconf := machine.Run(SetConf(setup.iface, stripped));
      if !setconf.ok {
        var _ := KillLocked();
        return Failed;
      }
      if meta.interfaceAddress != "" {
        var addr := machine.Run(AddrReplace(setup.iface, meta.interfaceAddress));
        if !addr.ok {
          var _ := KillLocked();
          return Failed;
        }
      }
      var up := machine.Run(LinkUp(setup.iface, EffectiveMTU(setup, meta)));
      if !up.ok {
        var _ := KillLocked();
        return Failed;
      }
      result := Ok;
    }

    method Stop() returns (result: Result)
      modifies this, machine
      ensures Run(Snapshot(), result) == StopRun(machine.env, setup, old(Snapshot()))
    {
      hide Exec, KillRun, IsMissingInterfaceOutput;
      var deleted := machine.Run(LinkDelete(setup.iface));
      var killed := KillLocked();
      if !killed.Ok? {
        return Failed;
      }
      if !deleted.ok && !IsMissingInterfaceOutput(deleted.output) {
        return Failed;
      }
      result := Ok;
    }

    method Restart(inputs: StartInputs) returns (result: Result)
      modifies this, machine
      ensures Run(Snapshot(), result) == RestartRun(machine.env, setup, old(Snapshot()), inputs)
    {
      var stopped := Stop();
      var started := Start(inputs);
      if !stopped.Ok? {
        return stopped;
      }
      result := started;
    }
  }

  // ------------------------------------------------------------- the process handle

  // The handle is on the one launched process no kill has been attempted on, if any.
  ghost predicate HandleExact(s: State) {
    && s.w.unkilled == (if s.process.Some? then {s.process.value} else {})
    && forall pid | pid in s.w.unkilled :: pid < s.w.launched
  }

  predicate IsProcessCommand(cmd: Command) {
    cmd.Launch? || cmd.Kill?
  }

  lemma OtherCommandsKeepProcesses(env: Env, w: World, cmd: Command)
    requires !IsProcessCommand(cmd)
    ensures Exec(env, w, cmd).w.unkilled == w.unkilled && Exec(env, w, cmd).w.launched == w.launched
  {
    hide Ipv4.ParsePrefix, Ipv4.ParseQuad;
  }

  lemma KillEndsHandle(env: Env, s: State)
    requires HandleExact(s)
    ensures HandleExact(KillRun(env, s).s) && KillRun(env, s).s.process == None
  {
    hide Ipv4.ParsePrefix, Ipv4.ParseQuad;
  }

  lemma LaunchHandle(env: Env, setup: Setup, w: World)
    requires w.unkilled == {}
    ensures HandleExact(LaunchRun(env, setup, w).s)
    ensures !LaunchRun(env, setup, w).result.Ok? ==> LaunchRun(env, setup, w).s.process == None
  {
    var launch := Exec(env, w, Launch(setup.iface));
    if launch.reply.ok {
      OtherCommandsKeepProcesses(env, launch.w, WaitReady(setup.iface));
      var ready := Exec(env, launch.w, WaitReady(setup.iface));
      KillEndsHandle(env, State(ready.w, Some(w.launched)));
    }
  }

  lemma EnsureHandle(env: Env, setup: Setup, s: State)
    requires HandleExact(s)
    ensures HandleExact(EnsureRun(env, setup, s).s)
    ensures !EnsureRun(env, setup, s).result.Ok? ==> EnsureRun(env, setup, s).s.process == None
  {
    hide Exec, LaunchRun;
    var show := Exec(env, s.w, LinkShow(setup.iface));
    var add := Exec(env, show.w, LinkAdd(setup.iface));
    OtherCommandsKeepProcesses(env, s.w, LinkShow(setup.iface));
    OtherCommandsKeepProcesses(env, show.w, LinkAdd(setup.iface));
    if s.process.None? {
      LaunchHandle(env, setup, add.w);
    }
  }

  lemma StepHandle(env: Env, s: State, cmd: Command)
    requires HandleExact(s) && !IsProcessCommand(cmd)
    ensures HandleExact(StepOrKill(env, s, cmd).s)
    ensures !StepOrKill(env, s, cmd).result.Ok? ==> StepOrKill(env, s, cmd).s.process == None
  {
    hide Exec, KillRun;
    OtherCommandsKeepProcesses(env, s.w, cmd);
    KillEndsHandle(env, s.(w := Exec(env, s.w, cmd).w));
  }

  lemma StartHandle(env: Env, setup: Setup, s: State, inputs: StartInputs)
    requires HandleExact(s)
    ensures HandleExact(StartRun(env, setup, s, inputs).s)
    ensures StartRun(env, setup, s, inputs).result == Failed ==> StartRun(env, setup, s, inputs).s.process == None
    ensures StartRun(env, setup, s, inputs).result == Refused ==> StartRun(env, setup, s, inputs).s == s
  {
    hide Exec, EnsureRun, StepOrKill, WgConfig.Validate, WgConfig.Setconf, HandleExact;
    EnsureHandle(env, setup, s);
    var r := EnsureRun(env, setup, s);
    EnsureNotRefused(env, setup, s);
    if inputs.config.Some? && r.result.Ok? {
      var meta := WgConfig.Validate(inputs.lib, inputs.config.value).meta;
      var c1 := SetConf(setup.iface, WgConfig.Setconf(inputs.config.value));
      StepHandle(env, r.s, c1);
      var r1 := StepOrKill(env, r.s, c1);
      StepNotRefused(env, r.s, c1);
      var c2 := AddrReplace(setup.iface, meta.interfaceAddress);
      StepHandle(env, r1.s, c2);
      StepNotRefused(env, r1.s, c2);
      var r2 := if meta.interfaceAddress == "" then r1 else StepOrKill(env, r1.s, c2);
      StepHandle(env, r2.s, LinkUp(setup.iface, EffectiveMTU(setup, meta)));
      StepNotRefused(env, r2.s, LinkUp(setup.iface, EffectiveMTU(setup, meta)));
    }
  }

  lemma EnsureNotRefused(env: Env, setup: Setup, s: State)
    ensures EnsureRun(env, setup, s).result != Refused
  {
    hide Exec;
  }

  lemma StepNotRefused(env: Env, s: State, cmd: Command)
    ensures StepOrKill(env, s, cmd).result != Refused
  {
  }

  lemma StopHandle(env: Env, setup: Setup, s: State)
    requires HandleExact(s)
    ensures HandleExact(StopRun(env, setup, s).s) && StopRun(env, setup, s).s.process == None
  {
    hide Exec, KillRun, IsMissingInterfaceOutput;
    OtherCommandsKeepProcesses(env, s.w, LinkDelete(setup.iface));
    KillEndsHandle(env, s.(w := Exec(env, s.w, LinkDelete(setup.iface)).w));
  }

  // Between operations a launched process may also die by itself and take its link along;
  // the manager is not told.
  datatype Op = DoStart(inputs: StartInputs) | DoStop | DoRestart(inputs: StartInputs) | ProcessDies(pid: nat)

  function OpRun(env: Env, setup: Setup, s: State, op: Op): Run {
    match op
    case DoStart(inputs) => StartRun(env, setup, s, inputs)
    case DoStop => StopRun(env, setup, s)
    case DoRestart(inputs) => RestartRun(env, setup, s, inputs)
    case ProcessDies(pid) => Run(s.(w := Exited(s.w, pid)), Ok)
  }

  function OpsRun(env: Env, setup: Setup, s: State, ops: seq<Op>): State
    decreases |ops|
  {
    if ops == [] then s else OpsRun(env, setup, OpRun(env, setup, s, ops[0]).s, ops[1..])
  }

  lemma OpHandle(env: Env, setup: Setup, s: State, op: Op)
    requires HandleExact(s)
    ensures HandleExact(OpRun(env, setup, s, op).s)
    ensures op.DoStop? ==> OpRun(env, setup, s, op).s.process == None
  {
    hide HandleExact, StartRun, StopRun;
    match op {
      case DoStart(inputs) => StartHandle(env, setup, s, inputs);
      case DoStop => StopHandle(env, setup, s);
      case DoRestart(inputs) =>
        StopHandle(env, setup, s);
        StartHandle(env, setup, StopRun(env, setup, s).s, inputs);
      case ProcessDies(pid) => DeathKeepsHandle(s, pid);
    }
  }

  lemma DeathKeepsHandle(s: State, pid: nat)
    requires HandleExact(s)
    ensures HandleExact(s.(w := Exited(s.w, pid)))
  {
  }

  // After any sequence of operations and deaths, however their commands fail, at most one
  // launched process has had no kill attempted, and it is the one the manager holds.
  lemma {:induction false} HandleAlwaysExact(env: Env, setup: Setup, s: State, ops: seq<Op>)
    requires HandleExact(s)
    ensures HandleExact(OpsRun(env, setup, s, ops))
    ensures ops != [] && ops[|ops| - 1].DoStop? ==> OpsRun(env, setup, s, ops).w.unkilled == {}
    decreases |ops|
  {
    hide OpRun;
    if ops != [] {
      OpHandle(env, setup, s, ops[0]);
      var s1 := OpRun(env, setup, s, ops[0]).s;
      HandleAlwaysExact(env, setup, s1, ops[1..]);
      if |ops| > 1 {
        assert ops[1..][|ops[1..]| - 1] == ops[|ops| - 1];
      }
    }
  }

  // The first commands of a Start that gets as far as the interface: show; if that fails,
  // add; and if that fails and no process is held, launch.
  lemma EnsureTries(env: Env, setup: Setup, s: State)
    ensures var n, log := |s.w.log|, EnsureRun(env, setup, s).s.w.log;
            && |log| > n && log[n].cmd == LinkShow(setup.iface)
            && (!log[n].ok ==> (|log| > n + 1 && log[n + 1].cmd == LinkAdd(setup.iface)))
            && (!log[n].ok && !log[n + 1].ok && s.process == None ==>
                  (|log| > n + 2 && log[n + 2].cmd == Launch(setup.iface)))
  {
    hide Feasible, Effect, Attempt, DefaultText;
  }

  // A stale handle does cost a Start: while the manager holds one and the kernel cannot make
  // the link, Start launches nothing and fails at the first command that needs the link.
  lemma StaleHandleFailsStart(env: Env, setup: Setup, s: State, inputs: StartInputs)
    requires s.process.Some? && setup.iface !in s.w.links
    requires !env.kernelWireGuard || !env.fates(|s.w.log| + 1).ok
    requires StartRun(env, setup, s, inputs).result != Refused
    ensures StartRun(env, setup, s, inputs).result == Failed
    ensures StartRun(env, setup, s, inputs).s.process == None
    ensures StartRun(env, setup, s, inputs).s.w.launched == s.w.launched
  {
    hide WgConfig.Validate, WgConfig.Setconf, DefaultText, Ipv4.ParsePrefix, Ipv4.ParseQuad;
    var show := Exec(env, s.w, LinkShow(setup.iface));
    var add := Exec(env, show.w, LinkAdd(setup.iface));
    assert EnsureRun(env, setup, s) == Run(s.(w := add.w), Ok);
    assert setup.iface !in add.w.links;
  }

  // A stale handle costs at most one Start: after one that failed in or after
  // ensureInterface, the next finds the link, or has the kernel make it, or launches anew.
  lemma StaleHandleCostsOneStart(env: Env, setup: Setup, s: State, inputs: StartInputs, again: StartInputs)
    requires HandleExact(s)
    requires StartRun(env, setup, s, inputs).result == Failed
    requires StartRun(env, setup, StartRun(env, setup, s, inputs).s, again).result != Refused
    ensures var s1 := StartRun(env, setup, s, inputs).s;
            var n, log := |s1.w.log|, EnsureRun(env, setup, s1).s.w.log;
            && |log| > n && log[n].cmd == LinkShow(setup.iface)
            && (log[n].ok
                || (|log| > n + 1 && log[n + 1].cmd == LinkAdd(setup.iface)
                    && (log[n + 1].ok || (|log| > n + 2 && log[n + 2].cmd == Launch(setup.iface)))))
  {
    hide StartRun, EnsureRun;
    StartHandle(env, setup, s, inputs);
    EnsureTries(env, setup, StartRun(env, setup, s, inputs).s);
  }

  // ------------------------------------------------------------- the commands of each operation

  // A command on this interface, with an MTU the interface accepts.
  predicate OfTunnel(cmd: Command, setup: Setup) {
    && OnTunnel(cmd, setup.iface)
    && (cmd.LinkUp? && setup.mtu == 0 ==> 576 <= cmd.mtu <= 9000)
  }

  lemma KillCommands(env: Env, setup: Setup, s: State) returns (cmds: seq<Command>)
    ensures Replay(env, s.w, cmds) == KillRun(env, s).s.w
    ensures cmds == if s.process.Some? then [Kill(s.process.value)] else []
    ensures forall i | 0 <= i < |cmds| :: OfTunnel(cmds[i], setup)
  {
    hide Exec;
    cmds := [];
    if s.process.Some? {
      cmds := [Kill(s.process.value)];
      ReplayOne(env, s.w, cmds[0]);
    }
  }

  lemma LaunchCommands(env: Env, setup: Setup, w: World) returns (cmds: seq<Command>)
    ensures Replay(env, w, cmds) == LaunchRun(env, setup, w).s.w
    ensures forall i | 0 <= i < |cmds| :: OfTunnel(cmds[i], setup)
  {
    hide Exec, KillRun, Replay;
    var launch := Exec(env, w, Launch(setup.iface));
    cmds := [Launch(setup.iface)];
    ReplayOne(env, w, Launch(setup.iface));
    if launch.reply.ok {
      var ready := Exec(env, launch.w, WaitReady(setup.iface));
      ReplayOne(env, launch.w, WaitReady(setup.iface));
      ReplayAppend(env, w, cmds, [WaitReady(setup.iface)]);
      cmds := cmds + [WaitReady(setup.iface)];
      if !ready.reply.ok {
        var kill := KillCommands(env, setup, State(ready.w, Some(w.launched)));
        ReplayAppend(env, w, cmds, kill);
        cmds := cmds + kill;
      }
    }
  }

  lemma EnsureCommands(env: Env, setup: Setup, s: State) returns (cmds: seq<Command>)
    ensures Replay(env, s.w, cmds) == EnsureRun(env, setup, s).s.w
    ensures forall i | 0 <= i < |cmds| :: OfTunnel(cmds[i], setup)
  {
    hide Exec, LaunchRun, Replay;
    var show := Exec(env, s.w, LinkShow(setup.iface));
    cmds := [LinkShow(setup.iface)];
    ReplayOne(env, s.w, LinkShow(setup.iface));
    if !show.reply.ok {
      var add := Exec(env, show.w, LinkAdd(setup.iface));
      ReplayOne(env, show.w, LinkAdd(setup.iface));
      ReplayAppend(env, s.w, cmds, [LinkAdd(setup.iface)]);
      cmds := cmds + [LinkAdd(setup.iface)];
      if !add.reply.ok && s.process.None? {
        var launch := LaunchCommands(env, setup, add.w);
        ReplayAppend(env, s.w, cmds, launch);
        cmds := cmds + launch;
      }
    }
  }

  lemma StepCommands(env: Env, setup: Setup, s: State, cmd: Command) returns (cmds: seq<Command>)
    requires OfTunnel(cmd, setup)
    ensures Replay(env, s.w, cmds) == StepOrKill(env, s, cmd).s.w
    ensures forall i | 0 <= i < |cmds| :: OfTunnel(cmds[i], setup)
  {
    hide Exec, KillRun, Replay;
    var step := Exec(env, s.w, cmd);
    cmds := [cmd];
    ReplayOne(env, s.w, cmd);
    if !step.reply.ok {
      var kill := KillCommands(env, setup, s.(w := step.w));
      ReplayAppend(env, s.w, cmds, kill);
      cmds := cmds + kill;
    }
  }

  lemma ConfigureCommands(
      env: Env, setup: Setup, s: State, config: string, meta: WgConfig.ConfigMeta) returns (cmds: seq<Command>)
    requires WgMeta.GoodMTU(meta.interfaceMTU)
    ensures Replay(env, s.w, cmds) == ConfigureRun(env, setup, s, config, meta).s.w
    ensures forall i | 0 <= i < |cmds| :: OfTunnel(cmds[i], setup)
  {
    hide StepOrKill, Replay, WgConfig.Setconf;
    var c1 := SetConf(setup.iface, WgConfig.Setconf(config));
    var r1 := StepOrKill(env, s, c1);
    cmds := StepCommands(env, setup, s, c1);
    if r1.result.Ok? {
      var r2 := r1;
      if meta.interfaceAddress != "" {
        var c2 := AddrReplace(setup.iface, meta.interfaceAddress);
        r2 := StepOrKill(env, r1.s, c2);
        var more := StepCommands(env, setup, r1.s, c2);
        ReplayAppend(env, s.w, cmds, more);
        cmds := cmds + more;
      }
      if r2.result.Ok? {
        var more := StepCommands(env, setup, r2.s, LinkUp(setup.iface, EffectiveMTU(setup, meta)));
        ReplayAppend(env, s.w, cmds, more);
        cmds := cmds + more;
      }
    }
  }

  // Start touches nothing but its interface, and brings it up with a valid MTU.
  lemma StartCommands(env: Env, setup: Setup, s: State, inputs: StartInputs) returns (cmds: seq<Command>)
    ensures Replay(env, s.w, cmds) == StartRun(env, setup, s, inputs).s.w
    ensures forall i | 0 <= i < |cmds| :: OfTunnel(cmds[i], setup)
  {
    hide EnsureRun, ConfigureRun, WgConfig.Meta, WgConfig.FirstError, OfTunnel;
    cmds := [];
    if inputs.config.Some? && WgConfig.Validate(inputs.lib, inputs.config.value).error.None? && inputs.tempOk {
      var r := EnsureRun(env, setup, s);
      cmds := EnsureCommands(env, setup, s);
      if r.result.Ok? {
        WgMeta.AcceptedMetaIsValid(inputs.lib, inputs.config.value);
        var more := ConfigureCommands(env, setup, r.s, inputs.config.value,
                                      WgConfig.Validate(inputs.lib, inputs.config.value).meta);
        ReplayAppend(env, s.w, cmds, more);
        cmds := cmds + more;
      }
    }
  }

  // Stop deletes the link and then kills the process it holds, whether or not the first
  // worked.
  lemma StopCommands(env: Env, setup: Setup, s: State) returns (cmds: seq<Command>)
    ensures Replay(env, s.w, cmds) == StopRun(env, setup, s).s.w
    ensures cmds == [LinkDelete(setup.iface)] + if s.process.Some? then [Kill(s.process.value)] else []
    ensures forall i | 0 <= i < |cmds| :: OfTunnel(cmds[i], setup)
  {
    hide Exec, KillRun, Replay;
    var deleted := Exec(env, s.w, LinkDelete(setup.iface));
    ReplayOne(env, s.w, LinkDelete(setup.iface));
    var kill := KillCommands(env, setup, s.(w := deleted.w));
    ReplayAppend(env, s.w, [LinkDelete(setup.iface)], kill);
    cmds := [LinkDelete(setup.iface)] + kill;
  }

  lemma RestartCommands(env: Env, setup: Setup, s: State, inputs: StartInputs) returns (cmds: seq<Command>)
    ensures Replay(env, s.w, cmds) == RestartRun(env, setup, s, inputs).s.w
    ensures forall i | 0 <= i < |cmds| :: OfTunnel(cmds[i], setup)
  {
    hide StopRun, StartRun, Replay, OfTunnel;
    var stop := StopCommands(env, setup, s);
    var start := StartCommands(env, setup, StopRun(env, setup, s).s, inputs);
    ReplayAppend(env, s.w, stop, start);
    cmds := stop + start;
  }

  // ------------------------------------------------------------- after Start, after Stop

  // The output of a failed command names a missing device only when the device is missing.
  ghost predicate Honest(env: Env) {
    forall n: nat :: !IsMissingInterfaceOutput(env.fates(n).output)
  }

  lemma DroppedLink(env: Env, w: World, iface: string)
    requires Honest(env)
    ensures var deleted := Exec(env, w, LinkDelete(iface));
            deleted.reply.ok || IsMissingInterfaceOutput(deleted.reply.output) ==> iface !in deleted.w.links
  {
    hide IsMissingInterfaceOutput;
  }

  // A Stop that reports success leaves no tunnel link, whether it deleted one or found none.
  lemma StopRemovesLink(env: Env, setup: Setup, s: State)
    requires Honest(env) && StopRun(env, setup, s).result == Ok
    ensures setup.iface !in StopRun(env, setup, s).s.w.links
  {
    DroppedLink(env, s.w, setup.iface);
    hide IsMissingInterfaceOutput;
  }

  lemma LowerCase(s: string)
    requires forall c | c in s :: !('A' <= c <= 'Z')
    ensures ToLower(s) == s
  {
    forall i | 0 <= i < |s|
      ensures ToLower(s)[i] == s[i]
    {
      assert s[i] in s;
    }
  }

  // The commands that configure the interface: the stripped configuration, the address if
  // there is one, and the MTU.
  function Configuring(setup: Setup, config: string): seq<Command> {
    var meta := WgConfig.Meta(config);
    [SetConf(setup.iface, WgConfig.Setconf(config))]
    + (if meta.interfaceAddress == "" then [] else [AddrReplace(setup.iface, meta.interfaceAddress)])
    + [LinkUp(setup.iface, EffectiveMTU(setup, meta))]
  }

  // The steps are of these commands, and worked.
  predicate Worked(steps: seq<Step>, cmds: seq<Command>) {
    |steps| == |cmds| && forall i | 0 <= i < |cmds| :: steps[i].cmd == cmds[i] && steps[i].ok
  }

  predicate EndsWith(log: seq<Step>, cmds: seq<Command>) {
    |log| >= |cmds| && Worked(log[|log| - |cmds|..], cmds)
  }

  lemma StepLogs(env: Env, s: State, cmd: Command, before: seq<Command>)
    requires StepOrKill(env, s, cmd).result.Ok? && EndsWith(s.w.log, before)
    ensures EndsWith(StepOrKill(env, s, cmd).s.w.log, before + [cmd])
  {
    hide Exec, EndsWith;
    ExecLog(env, s.w, cmd);
    var done := Exec(env, s.w, cmd);
    EndsWithNext(s.w.log, before, Step(cmd, done.reply.ok, done.w.routes));
  }

  lemma EndsWithNext(log: seq<Step>, before: seq<Command>, step: Step)
    requires EndsWith(log, before) && step.ok
    ensures EndsWith(log + [step], before + [step.cmd])
  {
    hide Worked;
    var steps := log[|log| - |before|..];
    assert (log + [step])[|log| - |before|..] == steps + [step];
    WorkedNext(steps, before, step);
  }

  lemma WorkedNext(steps: seq<Step>, cmds: seq<Command>, step: Step)
    requires Worked(steps, cmds) && step.ok
    ensures Worked(steps + [step], cmds + [step.cmd])
  {
  }

  // A Start that succeeds ends with exactly these commands, each of which worked.
  lemma StartCompletes(env: Env, setup: Setup, s: State, inputs: StartInputs)
    requires StartRun(env, setup, s, inputs).result == Ok
    ensures inputs.config.Some?
    ensures EndsWith(StartRun(env, setup, s, inputs).s.w.log, Configuring(setup, inputs.config.value))
  {
    hide EnsureRun, StepOrKill, EndsWith, WgConfig.Setconf, WgConfig.Meta, WgConfig.FirstError, EffectiveMTU;
    var config := inputs.config.value;
    var meta := WgConfig.Meta(config);
    var r := EnsureRun(env, setup, s);
    var c1 := SetConf(setup.iface, WgConfig.Setconf(config));
    assert EndsWith(r.s.w.log, []) by { NothingEnds(r.s.w.log); }
    StepLogs(env, r.s, c1, []);
    var r1 := StepOrKill(env, r.s, c1);
    var c3 := LinkUp(setup.iface, EffectiveMTU(setup, meta));
    if meta.interfaceAddress == "" {
      StepLogs(env, r1.s, c3, [] + [c1]);
      assert [] + [c1] + [c3] == Configuring(setup, config);
      assert StartRun(env, setup, s, inputs).s == StepOrKill(env, r1.s, c3).s;
    } else {
      var c2 := AddrReplace(setup.iface, meta.interfaceAddress);
      StepLogs(env, r1.s, c2, [] + [c1]);
      var r2 := StepOrKill(env, r1.s, c2);
      StepLogs(env, r2.s, c3, [] + [c1] + [c2]);
      assert StartRun(env, setup, s, inputs).s == StepOrKill(env, r2.s, c3).s;
      assert [] + [c1] + [c2] + [c3] == Configuring(setup, config);
    }
  }

  // What a Start that succeeds has done, told from the text: the last commands, all of which
  // worked, gave the interface the settings of the text less its Address and MTU, then the
  // last Address, if one is given, and brought it up with the last MTU, if one is given, or
  // else the manager's, or else 1320.
  lemma StartBringsUp(env: Env, setup: Setup, s: State, inputs: StartInputs)
    requires StartRun(env, setup, s, inputs).result == Ok
    ensures inputs.config.Some?
    ensures BroughtUp(setup, WgConfig.Events(inputs.config.value), StartRun(env, setup, s, inputs).s.w.log)
  {
    hide WgMeta.Given, WgMeta.LastValue, WgMeta.WithoutMetadata, WgConfig.Events, WgConfig.Setconf, WgConfig.Meta;
    hide IsMTU, EffectiveMTU, StartRun;
    StartAccepted(env, setup, s, inputs);
    StartCompletes(env, setup, s, inputs);
    var text, log := inputs.config.value, StartRun(env, setup, s, inputs).s.w.log;
    WgMeta.SetconfIsProjection(text);
    AddressIsGiven(inputs.lib, text);
    MTUIsGiven(inputs.lib, text, setup);
    var cmds := Configuring(setup, text);
    forall i | 0 <= i < |cmds|
      ensures log[|log| - |cmds| + i].cmd == cmds[i] && log[|log| - |cmds| + i].ok
    {
      assert log[|log| - |cmds|..][i] == log[|log| - |cmds| + i];
    }
  }

  predicate BroughtUp(setup: Setup, events: seq<WgConfig.Event>, log: seq<Step>) {
    var address := WgMeta.Given(events, "interface.address");
    var n := |log| - (if address then 3 else 2);
    && n >= 0 && (forall i | n <= i < |log| :: log[i].ok)
    && log[n].cmd.SetConf? && log[n].cmd.dev == setup.iface
    && WgConfig.Events(log[n].cmd.config) == WgMeta.WithoutMetadata(events)
    && (address ==>
          log[n + 1].cmd == AddrReplace(setup.iface, WgMeta.LastValue(events, "interface.address", "")))
    && log[|log| - 1].cmd.LinkUp? && log[|log| - 1].cmd.dev == setup.iface
    && IsMTU(events, setup.mtu, log[|log| - 1].cmd.mtu)
  }

  predicate IsMTU(events: seq<WgConfig.Event>, setup: int, mtu: int) {
    if WgMeta.Given(events, "interface.mtu") then
      Decimal.Atoi(WgMeta.LastValue(events, "interface.mtu", "")) == Decimal.Parsed(mtu, true)
    else if setup != 0 then mtu == setup
    else mtu == 1320
  }

  lemma StartAccepted(env: Env, setup: Setup, s: State, inputs: StartInputs)
    requires StartRun(env, setup, s, inputs).result == Ok
    ensures inputs.config.Some? && WgConfig.Validate(inputs.lib, inputs.config.value).error.None?
  {
    hide EnsureRun, ConfigureRun, WgConfig.Validate;
  }

  lemma AddressIsGiven(lib: WgConfig.Lib, text: string)
    requires WgConfig.Validate(lib, text).error.None?
    ensures var address := WgConfig.Meta(text).interfaceAddress;
            && address == WgMeta.LastValue(WgConfig.Events(text), "interface.address", "")
            && (address != "" <==> WgMeta.Given(WgConfig.Events(text), "interface.address"))
  {
    hide WgMeta.Given, WgMeta.LastValue, WgConfig.Events, WgConfig.Validate, WgMeta.Allowed;
    WgMeta.LastSettingWins(text);
    WgMeta.LastValueGiven(WgConfig.Events(text), "interface.address", "");
    if WgMeta.Given(WgConfig.Events(text), "interface.address") {
      WgMeta.AcceptedLastValue(lib, text, "interface.address", "");
    }
  }

  lemma MTUIsGiven(lib: WgConfig.Lib, text: string, setup: Setup)
    requires WgConfig.Validate(lib, text).error.None?
    ensures IsMTU(WgConfig.Events(text), setup.mtu, EffectiveMTU(setup, WgConfig.Meta(text)))
  {
    hide WgMeta.Given, WgMeta.LastValue, WgConfig.Events, WgConfig.Validate, Decimal.Atoi;
    var events := WgConfig.Events(text);
    WgMeta.LastSettingWins(text);
    WgMeta.LastValueGiven(events, "interface.mtu", "0");
    if WgMeta.Given(events, "interface.mtu") {
      WgMeta.AcceptedLastValue(lib, text, "interface.mtu", "");
      WgMeta.SameLastValue(events, "interface.mtu", "", "0");
    } else {
      NoMTU();
    }
  }

  lemma NoMTU()
    ensures Decimal.Atoi("0").value == 0
  {
  }

  lemma NothingEnds(log: seq<Step>)
    ensures EndsWith(log, [])
  {
  }

  lemma MissingText()
    ensures MISSING == "C" + "annot find device" + "\n"
    ensures "c" + "annot find device" == "cannot find device"
  {
  }

  lemma MissingIsRecognised()
    ensures IsMissingInterfaceOutput(MISSING)
  {
    hide ToLower, Contains;
    var rest := "annot find device";
    MissingText();
    LoweredMissing(rest);
    ContainsFramed("", "c" + rest, "\n");
    assert "" + ("c" + rest) + "\n" == "c" + rest + "\n";
  }

  lemma LoweredMissing(rest: string)
    requires forall c | c in rest :: !('A' <= c <= 'Z')
    ensures ToLower("C" + rest + "\n") == "c" + rest + "\n"
  {
    LowerCase(rest + "\n");
    assert ("C" + rest + "\n")[1..] == rest + "\n";
  }

  const NO_DEVICE := {"cannot find device", "does not exist", "no such device"}

  // The output says so in any of three ways, in any capitals, wherever it does.
  lemma MissingExactly(output: string)
    ensures IsMissingInterfaceOutput(output) <==>
            exists i, j | 0 <= i <= j <= |output| :: ToLower(output[i..j]) in NO_DEVICE
  {
    hide Contains;
    ContainsLowered(output, "cannot find device");
    ContainsLowered(output, "does not exist");
    ContainsLowered(output, "no such device");
  }

  lemma ContainsLowered(output: string, text: string)
    ensures Contains(ToLower(output), text) <==>
            exists i, j | 0 <= i <= j <= |output| :: ToLower(output[i..j]) == text
  {
    hide ToLower;
    var lower := ToLower(output);
    if Contains(lower, text) {
      var i :| 0 <= i <= |lower| && HasPrefix(lower[i..], text);
      LoweredPart(output, i, i + |text|);
      assert lower[i..][..|text|] == lower[i..i + |text|];
    }
    if i, j :| 0 <= i <= j <= |output| && ToLower(output[i..j]) == text {
      LoweredPart(output, i, j);
      assert lower[i..][..j - i] == lower[i..j];
    }
  }

  lemma LoweredPart(s: string, i: nat, j: nat)
    requires i <= j <= |s|
    ensures ToLower(s[i..j]) == ToLower(s)[i..j]
  {
    hide ToLower, ToLowerChar;
    LowerIs(s[i..j], ToLower(s)[i..j]);
  }

  // Stopping again succeeds and changes nothing but the log.
  lemma StopTwice(env: Env, setup: Setup, s: State)
    requires Honest(env) && StopRun(env, setup, s).result == Ok
    ensures var s1 := StopRun(env, setup, s).s;
            && StopRun(env, setup, s1).result == Ok
            && StopRun(env, setup, s1).s == s1.(w := s1.w.(log := StopRun(env, setup, s1).s.w.log))
  {
    hide Exec, IsMissingInterfaceOutput, Honest;
    StopRemovesLink(env, setup, s);
    MissingIsRecognised();
    DeleteMissing(env, StopRun(env, setup, s).s.w, setup.iface);
  }

  lemma DeleteMissing(env: Env, w: World, iface: string)
    requires iface !in w.links
    ensures var deleted := Exec(env, w, LinkDelete(iface));
            !deleted.reply.ok && deleted.reply.output == MISSING && deleted.w == w.(log := deleted.w.log)
  {
    hide DefaultText;
  }

  // A Start that reports success leaves the tunnel link in place.
  lemma StartMakesLink(env: Env, setup: Setup, s: State, inputs: StartInputs)
    requires StartRun(env, setup, s, inputs).result == Ok
    ensures setup.iface in StartRun(env, setup, s, inputs).s.w.links
  {
    hide EnsureRun, WgConfig.Validate, WgConfig.Setconf, KillRun;
  }
}
