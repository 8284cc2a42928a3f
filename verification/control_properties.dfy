/** What the control state machine promises over sequences of engine
    iterations: which states are frozen, what `step()` does, how a
    `CALL`/`RET` pair moves the counter, and which fields no iteration can
    take back. */
module ControlProperties {
  import opened Words
  import opened Isa
  import opened Vm
  import opened Exec
  import opened Engine
  import opened InstructionProperties

  /** The controls set only the status, so repeating one is the same as
      calling it once, and of two controls the later one decides. */
  lemma ControlsAreIdempotent(m: Machine)
    ensures Run(Run(m)) == Run(m)
    ensures Pause(Pause(m)) == Pause(m)
    ensures SingleStep(SingleStep(m)) == SingleStep(m)
    ensures Pause(Run(m)) == Pause(m) && Run(Pause(m)) == Run(m)
  {
  }

  /** The first application can be split off the front. */
  lemma {:induction false} IterateFirst<T>(f: T -> T, x: T, n: nat)
    ensures Iterate(f, x, n + 1) == Iterate(f, f(x), n)
    decreases n
  {
    if n > 0 {
      IterateFirst(f, x, n - 1);
    }
  }

  /** `a` applications followed by `b` more are `a + b` applications. */
  lemma {:induction false} IterateCompose<T>(f: T -> T, x: T, a: nat, b: nat)
    ensures Iterate(f, Iterate(f, x, a), b) == Iterate(f, x, a + b)
    decreases b
  {
    if b > 0 {
      IterateCompose(f, x, a, b - 1);
    }
  }

  /** A value that `p` applications bring back to itself comes back after
      every multiple of `p`. */
  lemma {:induction false} IteratePeriodic<T>(f: T -> T, x: T, p: nat, k: nat)
    requires Iterate(f, x, p) == x
    ensures Iterate(f, x, p * k) == x
    decreases k
  {
    if k > 0 {
      IteratePeriodic(f, x, p, k - 1);
      IterateCompose(f, x, p * (k - 1), p);
      assert p * (k - 1) + p == p * k;
    }
  }

  /** The last iteration can be split off the end of a run of iterations. */
  lemma TicksLast(m: Machine, host: Host, n: nat)
    ensures Ticks(m, host, n + 1) == Tick(Ticks(m, host, n), host)
  {
  }

  /** The call stack is visible after `pause()` and `crash()`, and hidden
      after `run()` and `step()`, whatever it holds. */
  lemma TraceVisibility(m: Machine, reason: string)
    ensures StackTrace(Pause(m)) == m.callStack
    ensures StackTrace(Crash(m, reason)) == m.callStack
    ensures StackTrace(Run(m)) == [] && StackTrace(SingleStep(m)) == []
  {
  }

  /** The first iteration can be split off the front of a run of iterations. */
  lemma TicksFirst(m: Machine, host: Host, n: nat)
    ensures Ticks(m, host, n + 1) == Ticks(Tick(m, host), host, n)
  {
    IterateFirst((x: Machine) => Tick(x, host), m, n);
  }

  /** A machine that returns to itself after `p` iterations does so again
      after every multiple of `p`. */
  lemma Periodic(m: Machine, host: Host, p: nat, k: nat)
    requires Ticks(m, host, p) == m
    ensures Ticks(m, host, p * k) == m
  {
    IteratePeriodic((x: Machine) => Tick(x, host), m, p, k);
  }

  /** A paused machine, and any machine whose engine loop has exited, stays
      exactly as it is, however many iterations the engine runs. */
  lemma {:induction false} IdleMachineIsFrozen(m: Machine, host: Host, n: nat)
    requires m.status == Paused || m.exited
    ensures Ticks(m, host, n) == m
    decreases n
  {
    if n > 0 {
      IdleMachineIsFrozen(m, host, n - 1);
    }
  }

  /** A stopped or crashed machine leaves the engine loop at the next
      iteration and nothing changes after that. */
  lemma HaltedMachineExits(m: Machine, host: Host, n: nat)
    requires Halted(m)
    ensures Ticks(m, host, n + 1) == m.(exited := true)
  {
    TicksFirst(m, host, n);
    IdleMachineIsFrozen(m.(exited := true), host, n);
  }

  /** Once the loop has exited, `run()` and `step()` set the status but no
      instruction ever runs again: the status stays what the control wrote
      and every other field stays as the halted machine left it. */
  lemma RestartAfterExitRunsNothing(m: Machine, host: Host, n: nat)
    requires Halted(m)
    ensures Ticks(Run(Tick(m, host)), host, n) == Run(m).(exited := true)
    ensures Ticks(SingleStep(Tick(m, host)), host, n) == SingleStep(m).(exited := true)
  {
    IdleMachineIsFrozen(Run(m).(exited := true), host, n);
    IdleMachineIsFrozen(SingleStep(m).(exited := true), host, n);
  }

  /** After the loop has exited, no sequence of controls, bindings and
      iterations changes anything but the status, the reason and the
      registry: the counter, the registers, both stacks, the program and
      the pool are final. */
  lemma {:induction false} ExitIsFinal(m: Machine, events: seq<Event>, host: Host)
    requires m.exited
    ensures var r := Replay(m, events, host);
      r.exited && r == m.(status := r.status, reason := r.reason, externals := r.externals)
    decreases |events|
  {
    if |events| > 0 {
      ExitIsFinal(Apply(m, events[0], host), events[1..], host);
    }
  }

  /** `pause()` between two iterations stops execution: nothing runs until
      the next control, and the call stack becomes visible. */
  lemma PauseStopsExecution(m: Machine, host: Host, n: nat)
    ensures Ticks(Pause(m), host, n) == Pause(m)
    ensures StackTrace(Ticks(Pause(m), host, n)) == m.callStack
  {
    IdleMachineIsFrozen(Pause(m), host, n);
  }

  /** `step()` on a paused machine is consumed by the next iteration, which
      turns it back into `Paused` without executing an instruction: the
      machine ends exactly where it was. After the loop has exited, nothing
      consumes the request. */
  lemma StepExecutesNothing(m: Machine, host: Host, n: nat)
    requires m.status == Paused
    ensures !m.exited ==> Ticks(SingleStep(m), host, n + 1) == m
    ensures m.exited ==> Ticks(SingleStep(m), host, n) == SingleStep(m)
  {
    if m.exited {
      IdleMachineIsFrozen(SingleStep(m), host, n);
    } else {
      TicksFirst(SingleStep(m), host, n);
      assert Tick(SingleStep(m), host) == m;
      IdleMachineIsFrozen(m, host, n);
    }
  }

  /** `crash(reason)` is terminal: the next iteration leaves the loop, the
      engine changes nothing else, the reason is readable and the call
      stack is visible. */
  lemma CrashIsTerminal(m: Machine, reason: string, host: Host, n: nat)
    ensures Ticks(Crash(m, reason), host, n).(exited := m.exited) == Crash(m, reason)
    ensures 0 < n ==> Ticks(Crash(m, reason), host, n).exited
    ensures CrashReason(Ticks(Crash(m, reason), host, n)) == reason
    ensures StackTrace(Ticks(Crash(m, reason), host, n)) == m.callStack
  {
    if n > 0 {
      HaltedMachineExits(Crash(m, reason), host, n - 1);
    }
  }

  /** `crash_reason()` reads the diagnostic of the last `crash()`: it is
      empty on a new machine, a later crash replaces it, and the controls
      and registry leave it alone. */
  lemma CrashReasonIsLastRecorded(m: Machine, first: string, second: string,
                                   program: seq<Instruction>, pool: seq<uint8>,
                                   name: ByteString, f: Callback)
    ensures CrashReason(Create(program, pool)) == ""
    ensures CrashReason(Crash(Crash(m, first), second)) == second
    ensures CrashReason(Run(m)) == CrashReason(m) && CrashReason(Pause(m)) == CrashReason(m)
    ensures CrashReason(SingleStep(m)) == CrashReason(m)
    ensures CrashReason(BindFunction(m, name, f)) == CrashReason(m)
  {
  }

  /** A running machine whose counter is outside the program, a negative
      counter included, stops at the next iteration, leaves the loop at the
      one after and changes nothing else. */
  lemma RunningOffTheEndStops(m: Machine, host: Host, n: nat)
    requires m.status == Running && (m.pc < 0 || |m.program| <= m.pc)
    requires |m.program| <= TWO_63
    ensures !m.exited ==> Ticks(m, host, n + 1).(exited := false) == m.(status := Stopped)
    ensures !m.exited ==> (Ticks(m, host, n + 1).exited <==> 0 < n)
    ensures m.exited ==> Ticks(m, host, n) == m
  {
    if m.exited {
      IdleMachineIsFrozen(m, host, n);
    } else {
      var stopped := m.(status := Stopped);
      TicksFirst(m, host, n);
      assert Tick(m, host) == stopped;
      if n > 0 {
        HaltedMachineExits(stopped, host, n - 1);
      }
    }
  }

  /** A `CALL` at index `p` to a `RET` returns to `p + 2`, not `p + 1`: the
      counter is incremented at the fetch and again by the push. The
      return address stays on the call stack. */
  lemma CallThenRet(m: Machine, host: Host)
    requires m.status == Running && 0 <= m.pc < |m.program| < TWO_63 - 2
    requires Decode(m.program[m.pc].opcode) == Some(CALL)
    requires var target := m.registers[m.program[m.pc].operand1];
      0 <= target < |m.program| && Decode(m.program[target].opcode) == Some(RET)
    ensures !m.exited ==> Ticks(m, host, 2) == m.(pc := m.pc + 2, callStack := m.callStack + [m.pc + 2])
    ensures m.exited ==> Ticks(m, host, 2) == m
  {
    if m.exited {
      IdleMachineIsFrozen(m, host, 2);
    } else {
      var call := m.program[m.pc];
      var target := m.registers[call.operand1];
      CallPushesReturnAddress(m.(pc := m.pc + 1), call, host);
      var m1 := m.(pc := target, callStack := m.callStack + [m.pc + 2]);
      assert Ticks(m, host, 1) == m1;
      RetReadsWithoutPopping(m1.(pc := target + 1), m.program[target], host);
    }
  }

  /** The program is a protected field: no iteration changes it. */
  lemma {:induction false} ProgramIsFixed(m: Machine, host: Host, n: nat)
    ensures Ticks(m, host, n).program == m.program
    decreases n
  {
    if n > 0 {
      ProgramIsFixed(m, host, n - 1);
    }
  }

  /** Within one iteration only a fetched `CALL` changes the call stack. */
  lemma OnlyCallTouchesCallStack(m: Machine, host: Host)
    ensures Tick(m, host).callStack != m.callStack ==>
      m.status == Running && CanFetch(m) && Decode(m.program[Unsigned(m.pc)].opcode) == Some(CALL)
  {
  }

  /** The call stack is a protected field that only `CALL` pushes to (the
      model restores it after every host callback) and nothing pops: every
      earlier call stack is a prefix of every later one. */
  lemma {:induction false} CallStackOnlyGrows(m: Machine, host: Host, n: nat)
    ensures m.callStack <= Ticks(m, host, n).callStack
    decreases n
  {
    if n > 0 {
      CallStackOnlyGrows(m, host, n - 1);
    }
  }

  /** A fresh machine waits: it is paused, no iteration changes it, its
      call stack is visible and empty, and it records no reason. */
  lemma FreshMachineWaits(program: seq<Instruction>, pool: seq<uint8>, host: Host, n: nat)
    ensures Ticks(Create(program, pool), host, n) == Create(program, pool)
    ensures StackTrace(Create(program, pool)) == []
    ensures CrashReason(Create(program, pool)) == ""
  {
    IdleMachineIsFrozen(Create(program, pool), host, n);
  }

  /** After `run()` on a fresh machine the first iteration executes
      instruction 0 with the counter already at 1; an empty program stops. */
  lemma RunStartsAtZero(program: seq<Instruction>, pool: seq<uint8>, host: Host)
    requires |program| < TWO_63
    ensures var m := Run(Create(program, pool));
      0 < |program| ==> Tick(m, host) == Execute(m.(pc := 1), program[0], host)
    ensures var m := Run(Create(program, pool));
      |program| == 0 ==> Tick(m, host) == m.(status := Stopped)
  {
  }
}
