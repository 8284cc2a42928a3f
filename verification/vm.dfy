/** The state of one HeVM virtual machine and the operations a host calls
    on it directly: construction, the run/pause/step/crash controls,
    binding external functions, and the two diagnostics. */
module Vm {
  import opened Words
  import opened Isa

  /** The register file: exactly 256 signed 64-bit registers. */
  type Registers = s: seq<i64> | |s| == 256 witness seq(256, _ => 0)

  /** The execution phase the engine loop polls. */
  datatype Status = Running | Step | Paused | Stopped | Crashed

  /** A registry name: a C++ `std::string` holds bytes, so every character
      of a name is below 256. */
  type ByteString = s: string | forall i :: 0 <= i < |s| ==> s[i] as int < 256

  /** What a registry entry runs when `CALL_EXT` resolves to it: one of the
      two built-ins bound at construction, or a host callback, known only by
      an identifier whose behaviour the `Host` supplies. */
  datatype Callback = Alloc | Free | External(id: nat)

  /** The whole machine. `callStack` and `program` are the protected
      fields of the C++ class; after a host callback returns, the model puts
      both back as they were. The tops of both stacks are their last
      elements. `exited` records that the engine loop has returned, which
      no operation undoes. */
  datatype Machine = Machine(
    callStack: seq<i64>,
    program: seq<Instruction>,
    reason: string,
    registers: Registers,
    pc: i64,
    stack: seq<i64>,
    pool: seq<uint8>,
    externals: map<ByteString, Callback>,
    status: Status,
    exited: bool)

  /** What lies outside the machine: the bodies of host callbacks, and the
      value a `READ_<width>` instruction loads from host memory at an
      address. */
  datatype Host = Host(
    callback: (nat, Machine) -> Machine,
    load: (nat, i64) -> i64)

  const ALLOC_NAME: ByteString := "alloc"
  const FREE_NAME: ByteString := "free"
  const MALLOC_EMPTY: string := "Function malloc: invalid arguments, stack is empty!"

  /** Builds a machine for `program` and `pool`: registers zeroed, both
      stacks empty, counter at the first instruction, paused, with the two
      built-ins bound. */
  function Create(program: seq<Instruction>, pool: seq<uint8>): (m: Machine)
    ensures m.program == program && m.pool == pool
    ensures forall i :: 0 <= i < 256 ==> m.registers[i] == 0
    ensures m.pc == 0 && m.stack == [] && m.callStack == []
    ensures m.status == Paused && !m.exited
    ensures m.externals.Keys == {ALLOC_NAME, FREE_NAME}
    ensures m.externals[ALLOC_NAME] == Alloc && m.externals[FREE_NAME] == Free
  {
    var empty := Machine([], program, "", seq(256, _ => 0), 0, [], pool, map[], Paused, false);
    BindFunction(BindFunction(empty, ALLOC_NAME, Alloc), FREE_NAME, Free)
  }

  /** `run()`: the engine starts fetching instructions. */
  function Run(m: Machine): (r: Machine)
    ensures r.status == Running
    ensures r.(status := m.status) == m
  {
    m.(status := Running)
  }

  /** `pause()`: the engine stops fetching instructions. */
  function Pause(m: Machine): (r: Machine)
    ensures r.status == Paused
    ensures r.(status := m.status) == m
  {
    m.(status := Paused)
  }

  /** `step()`: a request for one engine iteration. */
  function SingleStep(m: Machine): (r: Machine)
    ensures r.status == Step
    ensures r.(status := m.status) == m
  {
    m.(status := Status.Step)
  }

  /** `crash(reason)`: the single fatal path, recording its diagnostic. */
  function Crash(m: Machine, reason: string): (r: Machine)
    ensures r.status == Crashed && r.reason == reason
    ensures r.(status := m.status, reason := m.reason) == m
  {
    m.(status := Crashed, reason := reason)
  }

  /** `bind_function(name, f)`: adds or overwrites the entry for `name`. */
  function BindFunction(m: Machine, name: ByteString, f: Callback): (r: Machine)
    ensures name in r.externals && r.externals[name] == f
    ensures r.externals.Keys == m.externals.Keys + {name}
    ensures forall n :: n in m.externals && n != name ==> r.externals[n] == m.externals[n]
    ensures r.(externals := m.externals) == m
  {
    m.(externals := m.externals[name := f])
  }

  /** `stack_trace()`: the call stack, visible only while the engine is not
      changing it. */
  function StackTrace(m: Machine): (r: seq<i64>)
    ensures m.status == Crashed || m.status == Paused ==> r == m.callStack
    ensures m.status != Crashed && m.status != Paused ==> r == []
  {
    if m.status == Crashed || m.status == Paused then m.callStack else []
  }

  /** `crash_reason()`: the last recorded diagnostic. */
  function CrashReason(m: Machine): string
  {
    m.reason
  }
}
