/** The flight-software core object: the machine of module Fdir with its fields updated in
    place, and the counter file it shares with the lifetimes before and after it. */
module FlightCore {
  import opened Wrappers
  import opened Fdir

  /** The file that outlives the process; unreadable content counts as no content. */
  class BootCounterFile {
    var content: Option<nat>

    constructor (content: Option<nat>)
      ensures this.content == content
    {
      this.content := content;
    }
  }

  class FswCore {
    const config: Config
    const file: BootCounterFile
    var state: FswState
    var running: bool
    var tickCount: nat
    var consecutiveWdRestarts: nat
    var stabilityStart: Option<real>
    var lastTelemTime: real
    var telemSeqId: nat
    var activeFaults: seq<Fault>
    var transitions: seq<Transition>   // the STATE_TRANSITION entries this process logs
    var halts: nat                     // the CRITICAL_HALT entries it logs

    constructor (config: Config, file: BootCounterFile)
      ensures this.config == config && this.file == file
      ensures Abs() == Off(file.content)
    {
      this.config, this.file := config, file;
      state, running, tickCount, consecutiveWdRestarts := Boot, false, 0, 0;
      stabilityStart, lastTelemTime, telemSeqId := None, 0.0, 0;
      activeFaults, transitions, halts := [], [], 0;
    }

    ghost function Abs(): Machine
      reads this, file
    {
      Machine(Fsw(state, running, tickCount, consecutiveWdRestarts, stabilityStart, lastTelemTime,
                  telemSeqId, activeFaults, transitions, halts), file.content)
    }

    method LoadBootCounter() returns (n: nat)
      ensures n == file.content.GetOr(0)
    {
      n := file.content.GetOr(0);
    }

    method SaveBootCounter(n: nat)
      modifies file
      ensures file.content == Some(n)
    {
      file.content := Some(n);
    }

    method Transition(newState: FswState)
      modifies this`state, this`transitions
      ensures Abs() == old(Abs()).(fsw := TransitionTo(old(Abs()).fsw, newState))
    {
      var oldState := state;
      state := newState;
      transitions := transitions + [Fdir.Transition(oldState, newState, CodeOf(oldState, newState), consecutiveWdRestarts)];
    }

    /** With RECOVERY_MODE set to SAFE or not; on a new object this is a process start. */
    method Start(recoveryMode: bool)
      modifies this, file
      ensures Abs() == StartOn(config, old(Abs()), recoveryMode)
      ensures old(Abs()) == Off(old(file.content)) ==> Abs() == Fdir.Start(config, old(Abs()), recoveryMode)
    {
      if recoveryMode {
        var n := LoadBootCounter();
        consecutiveWdRestarts := n + 1;
        SaveBootCounter(consecutiveWdRestarts);
        if consecutiveWdRestarts > config.maxWdRestarts {
          Transition(Critical);
          running := false;
          return;
        } else {
          Transition(Safe);
        }
      } else {
        SaveBootCounter(0);
        consecutiveWdRestarts := 0;
        Transition(Boot);
      }
      running := true;
    }

    method Tick(input: Input) returns (s: FswState)
      modifies this, file
      ensures Abs() == Fdir.Tick(config, old(Abs()), input) && s == state
    {
      tickCount := tickCount + 1;
      match state {
        case Boot => DoBoot(input.selfTestOk);
        case Nominal => DoNominal(input.now, input.reading);
        case Safe => DoSafe(input.now, input.reading);
        case Critical => DoCritical();
      }
      s := state;
    }

    method DoBoot(selfTestOk: bool)
      modifies this, file
      ensures Abs() == Fdir.DoBoot(old(Abs()), selfTestOk)
    {
      if selfTestOk {
        Transition(Nominal);
        SaveBootCounter(0);
        consecutiveWdRestarts := 0;
      } else {
        Transition(Safe);
      }
    }

    method DoNominal(now: real, reading: Reading)
      modifies this
      ensures Abs() == Fdir.DoNominal(config, old(Abs()), now, reading)
    {
      var faults := EvaluateFaults(config, reading);
      if faults != [] {
        activeFaults := faults;
        Transition(Safe);
        return;
      }
      EmitTelemetry(now);
    }

    method DoSafe(now: real, reading: Reading)
      modifies this, file
      ensures Abs() == Fdir.DoSafe(config, old(Abs()), now, reading)
    {
      if now - lastTelemTime < config.telemetryRateSafe {
        return;
      }
      if consecutiveWdRestarts > config.maxWdRestarts {
        Transition(Critical);
        return;
      }
      var recoveryOk := EvaluateRecovery(now, reading);
      if recoveryOk {
        activeFaults := [];
        stabilityStart := None;
        Transition(Nominal);
        SaveBootCounter(0);
        consecutiveWdRestarts := 0;
        return;
      }
      EmitTelemetry(now);
    }

    method DoCritical()
      modifies this
      ensures Abs() == Fdir.DoCritical(old(Abs()))
    {
      if running {
        halts := halts + 1;
        running := false;
      }
    }

    method EvaluateRecovery(now: real, reading: Reading) returns (ok: bool)
      modifies this`stabilityStart
      ensures var (f, go) := Fdir.EvaluateRecovery(config, old(Abs()).fsw, now, reading);
        Abs() == old(Abs()).(fsw := f) && ok == go
    {
      var clear := ConditionsClear(config, reading);
      if !clear {
        stabilityStart := None;
        return false;
      }
      if stabilityStart.None? {
        stabilityStart := Some(now);
        return false;
      }
      var elapsed := now - stabilityStart.value;
      ok := elapsed >= config.stabilityTimer;
    }

    method EmitTelemetry(now: real)
      modifies this`telemSeqId, this`lastTelemTime
      ensures Abs() == old(Abs()).(fsw := Fdir.EmitTelemetry(old(Abs()).fsw, now))
    {
      telemSeqId := telemSeqId + 1;
      lastTelemTime := now;
    }
  }
}
