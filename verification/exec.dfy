/** The semantics of one HeVM instruction (`RunInstruction`), including the
    external-call protocol of `CALL_EXT` and the two built-in externals. */
module Exec {
  import opened Words
  import opened Isa
  import opened Vm

  const RET_EMPTY: string := "Invalid instruction RET: Callstack is empty!"
  const POP_EMPTY: string := "Invalid pop instruction: stack is empty!"
  const INVALID_INSTRUCTION: string := "Invalid instruction!"
  const CRASH_CALLED: string := "CRASH instruction called!"
  /** `DIV`/`REM` whose result C++ leaves undefined. The C++ code has no such
      check; the model turns the undefined case into this crash. */
  const UNDEFINED_DIVISION: string := "Undefined DIV/REM: zero divisor or INT64_MIN / -1"

  /** The memory-access opcodes, each guarded against zero operands. */
  predicate IsMemoryAccess(op: Opcode)
  {
    op in {READ_1, READ_2, READ_4, READ_8, READ, WRITE_1, WRITE_2, WRITE_4, WRITE_8, WRITE}
  }

  /** The crash reason of a memory-access opcode whose guard fails. */
  function MemoryFault(op: Opcode): (reason: string)
    requires IsMemoryAccess(op)
  {
    var name := match op
      case READ_1 => "READ_1"
      case READ_2 => "READ_2"
      case READ_4 => "READ_4"
      case READ_8 => "READ_8"
      case READ => "READ"
      case WRITE_1 => "WRITE_1"
      case WRITE_2 => "WRITE_2"
      case WRITE_4 => "WRITE_4"
      case WRITE_8 => "WRITE_8"
      case WRITE => "WRITE";
    "Invalid instruction " + name + ": invalid operand"
  }

  /** The decimal text of an integer, as `std::to_string` renders it. */
  function Decimal(x: int): string
  {
    if x < 0 then "-" + Digits(-x) else Digits(x)
  }

  function Digits(n: nat): (s: string)
    decreases n
  {
    var d := ["0123456789"[n % 10]];
    if n < 10 then d else Digits(n / 10) + d
  }

  function AddressFault(addr: i64): string
  {
    "Invalid instruction CALL_EXT: Unknown function name addr '" + Decimal(addr) + "'"
  }

  function UnknownFunction(name: string): string
  {
    "Invalid instruction CALL_EXT: Unknown function '" + name + "'"
  }

  /** Register `i` set to `v`, nothing else changed. */
  function SetReg(m: Machine, i: uint8, v: i64): (r: Machine)
    ensures r.registers[i] == v
    ensures forall j :: 0 <= j < 256 && j != i as int ==> r.registers[j] == m.registers[j]
    ensures r.(registers := m.registers) == m
  {
    m.(registers := m.registers[i := v])
  }

  /** A C++ `bool` stored into an `int64_t`. */
  function Flag(b: bool): (r: i64)
    ensures r == 0 || r == 1
    ensures r == 1 <==> b
  {
    if b then 1 else 0
  }

  /** The bytes of the NUL-terminated string at offset `start` of the pool:
      every byte up to, not including, the first zero byte. A string the pool
      does not terminate (undefined in C++) runs to the pool's end. */
  function CString(pool: seq<uint8>, start: nat): (name: seq<uint8>)
    requires start <= |pool|
    ensures start + |name| <= |pool|
    ensures name == pool[start..start + |name|]
    ensures forall i :: 0 <= i < |name| ==> name[i] != 0
    ensures start + |name| == |pool| || pool[start + |name|] == 0
    decreases |pool| - start
  {
    if start == |pool| || pool[start] == 0 then []
    else [pool[start]] + CString(pool, start + 1)
  }

  /** The name at `start` is exactly the bytes before the first NUL: any
      zero-free run of bytes that ends at a NUL or at the end of the pool is
      the name. */
  lemma CStringEndsAtFirstNul(pool: seq<uint8>, start: nat, len: nat)
    requires start + len <= |pool|
    requires 0 !in pool[start..start + len]
    requires start + len == |pool| || pool[start + len] == 0
    ensures CString(pool, start) == pool[start..start + len]
  {
    forall i | start <= i < start + len
      ensures pool[i] != 0
    {
      assert pool[start..start + len][i - start] == pool[i];
    }
  }

  /** A byte string as the registry's `std::string` keys hold it. */
  function Text(bytes: seq<uint8>): (s: ByteString)
    ensures |s| == |bytes|
    ensures forall i :: 0 <= i < |s| ==> s[i] as int == bytes[i] as int
  {
    seq(|bytes|, i requires 0 <= i < |bytes| => (bytes[i] as int) as char)
  }

  /** The registry key a `CALL_EXT` looks up for the name at `offset`. */
  function NameAt(pool: seq<uint8>, offset: nat): ByteString
    requires offset <= |pool|
  {
    Text(CString(pool, offset))
  }

  /** Runs the callback `f` once on `m`. The callback sees and may change
      every public field; the engine's protected fields and the loop's exit
      come out as they went in, so a callback that itself runs instructions
      is not modelled. */
  function Invoke(m: Machine, f: Callback, host: Host): (r: Machine)
    ensures r.program == m.program && r.callStack == m.callStack
    ensures r.exited == m.exited
  {
    match f
    case Alloc => if |m.stack| == 0 then Crash(m, MALLOC_EMPTY) else m
    case Free => m
    case External(id) =>
      var after := host.callback(id, m);
      after.(callStack := m.callStack, program := m.program, exited := m.exited)
  }

  /** `CALL_EXT`: resolve the name at the pool offset held in `addr` and run
      the callback bound to it. The range test compares `addr` as an
      unsigned value with the pool size, so a negative address is out of
      range. */
  function CallExternal(m: Machine, addr: i64, host: Host): (r: Machine)
    ensures r.program == m.program && r.callStack == m.callStack
    ensures r.exited == m.exited
    ensures |m.pool| <= TWO_63 && (addr < 0 || |m.pool| <= addr) ==> r == Crash(m, AddressFault(addr))
    ensures 0 <= addr < |m.pool| && NameAt(m.pool, addr) !in m.externals ==>
      r == Crash(m, UnknownFunction(NameAt(m.pool, addr)))
    ensures 0 <= addr < |m.pool| && NameAt(m.pool, addr) in m.externals ==>
      r == Invoke(m, m.externals[NameAt(m.pool, addr)], host)
  {
    if Unsigned(addr) >= |m.pool| then Crash(m, AddressFault(addr))
    else
      var name := NameAt(m.pool, Unsigned(addr));
      if name !in m.externals then Crash(m, UnknownFunction(name))
      else Invoke(m, m.externals[name], host)
  }

  /** The top of a non-empty stack. */
  function Top(s: seq<i64>): i64
    requires |s| > 0
  {
    s[|s| - 1]
  }

  /** `READ_<width>`: both operand registers non-zero, or crash. The loaded
      value comes from host memory. */
  function LoadSized(m: Machine, ins: Instruction, host: Host, width: nat, op: Opcode): Machine
    requires IsMemoryAccess(op)
  {
    var dst := m.registers[ins.operand1];
    var src := m.registers[ins.operand2];
    if dst != 0 && src != 0 then SetReg(m, ins.operand1, host.load(width, src))
    else Crash(m, MemoryFault(op))
  }

  /** Any other memory access: its only modelled effect is the guard. */
  function GuardOnly(m: Machine, ins: Instruction, op: Opcode, sized: bool): Machine
    requires IsMemoryAccess(op)
  {
    var dst := m.registers[ins.operand1];
    var src := m.registers[ins.operand2];
    if dst != 0 && src != 0 && (!sized || ins.immediate != 0) then m
    else Crash(m, MemoryFault(op))
  }

  /** `RunInstruction`: one instruction applied to a machine whose program
      counter has already been advanced past it. The program never changes,
      only `CALL` changes the call stack, and nothing ever pops it. */
  function Execute(m: Machine, ins: Instruction, host: Host): (r: Machine)
    ensures r.program == m.program
    ensures Decode(ins.opcode) != Some(CALL) ==> r.callStack == m.callStack
    ensures m.callStack <= r.callStack
    ensures r.exited == m.exited
  {
    var a := ins.operand1;
    var x := m.registers[ins.operand1];
    var y := m.registers[ins.operand2];
    match Decode(ins.opcode)
    case None =>
      // The default branch has no `break`: it falls into `CRASH`.
      Crash(Crash(m, INVALID_INSTRUCTION), CRASH_CALLED)
    case Some(op) =>
      match op
      case NOP => m
      case MOVE => SetReg(m, a, y)
      case LOAD_VAL => SetReg(m, a, ins.immediate)
      case READ_1 => LoadSized(m, ins, host, 1, READ_1)
      case READ_2 => LoadSized(m, ins, host, 2, READ_2)
      case READ_4 => LoadSized(m, ins, host, 4, READ_4)
      case READ_8 => LoadSized(m, ins, host, 8, READ_8)
      case READ => GuardOnly(m, ins, READ, true)
      case WRITE_1 => GuardOnly(m, ins, WRITE_1, false)
      case WRITE_2 => GuardOnly(m, ins, WRITE_2, false)
      case WRITE_4 => GuardOnly(m, ins, WRITE_4, false)
      case WRITE_8 => GuardOnly(m, ins, WRITE_8, false)
      case WRITE => GuardOnly(m, ins, WRITE, true)
      case ADD => SetReg(m, a, Wrap(x as int + y as int))
      case SUB => SetReg(m, a, Wrap(x as int - y as int))
      case MUL => SetReg(m, a, Wrap(x as int * y as int))
      case DIV =>
        if DivisionDefined(x, y) then QuotientFits(x, y); SetReg(m, a, Quot(x, y))
        else Crash(m, UNDEFINED_DIVISION)
      case REM =>
        if DivisionDefined(x, y) then SetReg(m, a, Rem(x, y))
        else Crash(m, UNDEFINED_DIVISION)
      case CALL =>
        // `push(++pc)`: the counter is incremented once more before the push.
        var ret := Wrap(m.pc as int + 1);
        m.(callStack := m.callStack + [ret], pc := x)
      case CALL_EXT => CallExternal(m, x, host)
      case RET =>
        // The return address is read but not popped.
        if |m.callStack| == 0 then Crash(m, RET_EMPTY) else m.(pc := Top(m.callStack))
      case JMPR => m.(pc := x)
      case JMP => m.(pc := ins.immediate)
      case JEZ => if x == 0 then m.(pc := ins.immediate) else m
      case JEO => if x == 1 then m.(pc := ins.immediate) else m
      case JEZR =>
        // Condition and target are both read from `operand1`.
        var cond := m.registers[ins.operand1];
        var target := m.registers[ins.operand1];
        if cond == 0 then m.(pc := target) else m
      case JEOR =>
        var cond := m.registers[ins.operand1];
        var target := m.registers[ins.operand1];
        if cond == 1 then m.(pc := target) else m
      case CL => SetReg(m, a, Flag(x < y))
      case CLE => SetReg(m, a, Flag(x <= y))
      case CG => SetReg(m, a, Flag(x > y))
      case CGE => SetReg(m, a, Flag(x >= y))
      case CE => SetReg(m, a, Flag(x == y))
      case CNE => SetReg(m, a, Flag(x != y))
      case XOR => SetReg(m, a, Xor(y, x))
      case OR => SetReg(m, a, Or(y, x))
      case NEG => SetReg(m, a, Not(x))
      case AND => SetReg(m, a, And(y, x))
      case PUSH => m.(stack := m.stack + [ins.immediate])
      case PUSHR => m.(stack := m.stack + [x])
      case POP =>
        if |m.stack| == 0 then Crash(m, POP_EMPTY)
        else SetReg(m, a, Top(m.stack)).(stack := m.stack[..|m.stack| - 1])
      case CRASH => Crash(m, CRASH_CALLED)
  }
}
