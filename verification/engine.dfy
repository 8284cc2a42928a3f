/** The engine loop of `thread_work`, one iteration at a time. The loop
    runs on its own thread in the C++ code; here an iteration is a
    transition that a driver interleaves with the host's control
    operations, until the loop exits. */
module Engine {
  import opened Words
  import opened Isa
  import opened Vm
  import opened Exec

  /** The loop condition fails: the next iteration to look at the status
      leaves the loop. */
  predicate Halted(m: Machine)
  {
    m.status == Crashed || m.status == Stopped
  }

  /** The fetch test: the counter, converted to unsigned, indexes the
      program. */
  predicate CanFetch(m: Machine)
  {
    Unsigned(m.pc) < |m.program|
  }

  /** One iteration of the engine loop. Once the loop has exited, nothing
      happens any more, whatever the status says. Otherwise the loop
      condition is tested first: a crashed or stopped machine leaves the
      loop for good. A `Step` request is turned back into `Paused` without
      executing anything; a running machine fetches, advances the counter,
      then executes; running off the program stops. */
  function Tick(m: Machine, host: Host): (r: Machine)
    ensures m.exited ==> r == m
    ensures !m.exited && Halted(m) ==> r == m.(exited := true)
    ensures m.status == Paused ==> r == m
    ensures !m.exited && m.status == Status.Step ==> r == Pause(m)
    ensures !m.exited && m.status == Running && 0 <= m.pc < |m.program| && |m.program| < TWO_63 ==>
      r == Execute(m.(pc := m.pc + 1), m.program[m.pc], host)
    ensures !m.exited && m.status == Running && (m.pc < 0 || |m.program| <= m.pc) && |m.program| <= TWO_63 ==>
      r == m.(status := Stopped)
    ensures r.exited <==> m.exited || Halted(m)
    ensures r.program == m.program
    ensures m.callStack <= r.callStack
  {
    if m.exited then m
    else
      match m.status
      case Crashed => m.(exited := true)
      case Stopped => m.(exited := true)
      case Step => m.(status := Paused)
      case Paused => m
      case Running =>
        if CanFetch(m) then
          var now := m.program[Unsigned(m.pc)];
          Execute(m.(pc := Wrap(m.pc as int + 1)), now, host)
        else
          m.(status := Stopped)
  }

  /** `n` applications of `f`, the last one outermost. */
  function Iterate<T>(f: T -> T, x: T, n: nat): T
    decreases n
  {
    if n == 0 then x else f(Iterate(f, x, n - 1))
  }

  /** `n` iterations of the engine loop with no control operation between
      them. */
  function Ticks(m: Machine, host: Host, n: nat): Machine
  {
    Iterate((x: Machine) => Tick(x, host), m, n)
  }

  /** What the host and the engine thread can do to a machine: the four
      controls, binding a callback, and one loop iteration. */
  datatype Event =
    | RunCall
    | PauseCall
    | StepCall
    | CrashCall(reason: string)
    | BindCall(name: ByteString, f: Callback)
    | Iteration

  /** The machine after one event. */
  function Apply(m: Machine, e: Event, host: Host): Machine
  {
    match e
    case RunCall => Run(m)
    case PauseCall => Pause(m)
    case StepCall => SingleStep(m)
    case CrashCall(reason) => Crash(m, reason)
    case BindCall(name, f) => BindFunction(m, name, f)
    case Iteration => Tick(m, host)
  }

  /** The machine after a sequence of events, the first one first. */
  function Replay(m: Machine, events: seq<Event>, host: Host): Machine
    decreases |events|
  {
    if |events| == 0 then m else Replay(Apply(m, events[0], host), events[1..], host)
  }
}
