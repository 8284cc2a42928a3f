/** What single instructions promise: the call/return protocol, the operand
    stack, external-call resolution, which state each opcode may touch, and
    the fault cases. */
module InstructionProperties {
  import opened Words
  import opened Isa
  import opened Vm
  import opened Exec

  /** Both operand fields are bytes, so every register an instruction names
      exists in the 256-entry register file. */
  lemma OperandsNameRegisters(m: Machine, ins: Instruction)
    ensures 0 <= ins.operand1 as int < |m.registers|
    ensures 0 <= ins.operand2 as int < |m.registers|
  {
  }

  /** `CALL` pushes the counter plus one (the counter is already past the
      `CALL`) and jumps to the register's value; nothing else changes. */
  lemma CallPushesReturnAddress(m: Machine, ins: Instruction, host: Host)
    requires Decode(ins.opcode) == Some(CALL)
    requires m.pc < TWO_63 - 1
    ensures Execute(m, ins, host).callStack == m.callStack + [m.pc + 1]
    ensures Execute(m, ins, host).pc == m.registers[ins.operand1]
    ensures Execute(m, ins, host).(callStack := m.callStack, pc := m.pc) == m
  {
  }

  /** `RET` jumps to the top of the call stack and leaves the stack as it
      was; on an empty call stack it crashes and does not move the counter. */
  lemma RetReadsWithoutPopping(m: Machine, ins: Instruction, host: Host)
    requires Decode(ins.opcode) == Some(RET)
    ensures |m.callStack| > 0 ==>
      Execute(m, ins, host) == m.(pc := m.callStack[|m.callStack| - 1])
    ensures |m.callStack| == 0 ==>
      Execute(m, ins, host) == Crash(m, RET_EMPTY)
  {
  }

  /** `PUSH x` then `POP r` is `r := x`: the operand stack ends as it began
      and no other register or field changes. */
  lemma PushThenPop(m: Machine, push: Instruction, pop: Instruction, host: Host)
    requires Decode(push.opcode) == Some(PUSH) && Decode(pop.opcode) == Some(POP)
    ensures Execute(Execute(m, push, host), pop, host) == SetReg(m, pop.operand1, push.immediate)
    ensures Execute(Execute(m, push, host), pop, host).stack == m.stack
  {
    var m1 := Execute(m, push, host);
    assert m1.stack[..|m1.stack| - 1] == m.stack;
  }

  /** `POP` on an empty operand stack crashes and writes no register. */
  lemma PopEmptyCrashes(m: Machine, ins: Instruction, host: Host)
    requires Decode(ins.opcode) == Some(POP) && m.stack == []
    ensures Execute(m, ins, host).status == Crashed
    ensures Execute(m, ins, host).reason == POP_EMPTY
    ensures Execute(m, ins, host).registers == m.registers
  {
  }

  /** The address register of a `CALL_EXT`. */
  function CallTarget(m: Machine, ins: Instruction): i64
  {
    m.registers[ins.operand1]
  }

  /** `CALL_EXT` resolution, stated on the signed address: an address outside
      the pool (negative ones included) crashes; a name with no binding
      crashes with that name in the reason; a bound name runs its callback
      once. */
  lemma CallExternalResolution(m: Machine, ins: Instruction, host: Host)
    requires Decode(ins.opcode) == Some(CALL_EXT)
    requires |m.pool| <= TWO_63
    ensures var addr := CallTarget(m, ins);
      addr < 0 || |m.pool| <= addr ==>
        Execute(m, ins, host) == Crash(m, AddressFault(addr))
    ensures var addr := CallTarget(m, ins);
      0 <= addr < |m.pool| && NameAt(m.pool, addr) !in m.externals ==>
        Execute(m, ins, host) == Crash(m, UnknownFunction(NameAt(m.pool, addr)))
    ensures var addr := CallTarget(m, ins);
      0 <= addr < |m.pool| && NameAt(m.pool, addr) in m.externals ==>
        Execute(m, ins, host) == Invoke(m, m.externals[NameAt(m.pool, addr)], host)
  {
  }

  /** Binding a name twice keeps only the second callback, and a `CALL_EXT`
      that resolves to that name runs it. */
  lemma LastBindingWins(m: Machine, name: ByteString, f: Callback, g: Callback, ins: Instruction, host: Host)
    requires Decode(ins.opcode) == Some(CALL_EXT)
    ensures BindFunction(BindFunction(m, name, f), name, g) == BindFunction(m, name, g)
    ensures var m' := BindFunction(BindFunction(m, name, f), name, g);
      var addr := CallTarget(m, ins);
      0 <= addr < |m.pool| && NameAt(m.pool, addr) == name ==>
        Execute(m', ins, host) == Invoke(m', g, host)
  {
  }

  /** The built-in `alloc` crashes exactly when the operand stack is empty
      and never pops; `free` does nothing. */
  lemma BuiltinsAreStubs(m: Machine, host: Host)
    ensures Invoke(m, Alloc, host).stack == m.stack
    ensures |m.stack| == 0 ==> Invoke(m, Alloc, host) == Crash(m, MALLOC_EMPTY)
    ensures |m.stack| > 0 ==> Invoke(m, Alloc, host) == m
    ensures Invoke(m, Free, host) == m
  {
  }

  /** The opcodes whose only effect is on the register named by
      `operand1`. `DIV` and `REM` belong here only where C++ defines them. */
  predicate WritesDestinationOnly(m: Machine, ins: Instruction)
  {
    match Decode(ins.opcode)
    case None => false
    case Some(op) =>
      op in {MOVE, LOAD_VAL, ADD, SUB, MUL, CL, CLE, CG, CGE, CE, CNE, XOR, OR, NEG, AND}
      || (op in {DIV, REM} && DivisionDefined(m.registers[ins.operand1], m.registers[ins.operand2]))
  }

  /** Data movement, arithmetic, comparison and bitwise opcodes change the
      `operand1` register and nothing else. */
  lemma DestinationOnly(m: Machine, ins: Instruction, host: Host)
    requires WritesDestinationOnly(m, ins)
    ensures var r := Execute(m, ins, host);
      r == SetReg(m, ins.operand1, r.registers[ins.operand1])
  {
  }

  /** The result an arithmetic opcode leaves in `operand1`: the sum,
      difference and product modulo 2^64, the quotient rounded toward zero
      and its remainder; an undefined division crashes. */
  lemma ArithmeticResults(m: Machine, ins: Instruction, host: Host)
    ensures var x, y := m.registers[ins.operand1], m.registers[ins.operand2];
      var v := Execute(m, ins, host).registers[ins.operand1];
      && (Decode(ins.opcode) == Some(ADD) ==> (v - (x + y)) % TWO_64 == 0)
      && (Decode(ins.opcode) == Some(SUB) ==> (v - (x - y)) % TWO_64 == 0)
      && (Decode(ins.opcode) == Some(MUL) ==> (v - x * y) % TWO_64 == 0)
      && (Decode(ins.opcode) == Some(DIV) && DivisionDefined(x, y) ==>
            Abs(v * y) <= Abs(x) < Abs(v * y) + Abs(y) && (v == 0 || ((v < 0) <==> ((x < 0) != (y < 0)))))
      && (Decode(ins.opcode) == Some(REM) && DivisionDefined(x, y) ==>
            x == Quot(x, y) * y + v && Abs(v) < Abs(y))
    ensures var x, y := m.registers[ins.operand1], m.registers[ins.operand2];
      Decode(ins.opcode) in {Some(DIV), Some(REM)} && !DivisionDefined(x, y) ==>
        Execute(m, ins, host) == Crash(m, UNDEFINED_DIVISION)
  {
  }

  /** Comparisons are signed and yield 0 or 1; `CE` yields 1 exactly for
      equal operands and `CNE` yields the complement of `CE`. */
  lemma ComparisonResults(m: Machine, ins: Instruction, host: Host)
    requires Decode(ins.opcode) in {Some(CL), Some(CLE), Some(CG), Some(CGE), Some(CE), Some(CNE)}
    ensures var x, y := m.registers[ins.operand1], m.registers[ins.operand2];
      var v := Execute(m, ins, host).registers[ins.operand1];
      && (v == 0 || v == 1)
      && (Decode(ins.opcode) == Some(CL) ==> (v == 1 <==> x < y))
      && (Decode(ins.opcode) == Some(CLE) ==> (v == 1 <==> x <= y))
      && (Decode(ins.opcode) == Some(CG) ==> (v == 1 <==> x > y))
      && (Decode(ins.opcode) == Some(CGE) ==> (v == 1 <==> x >= y))
      && (Decode(ins.opcode) == Some(CE) ==> (v == 1 <==> x == y))
      && (Decode(ins.opcode) == Some(CNE) ==> (v == 1 <==> x != y))
  {
  }

  lemma NotEqualComplementsEqual(m: Machine, ce: Instruction, cne: Instruction, host: Host)
    requires Decode(ce.opcode) == Some(CE) && Decode(cne.opcode) == Some(CNE)
    requires ce.operand1 == cne.operand1 && ce.operand2 == cne.operand2
    ensures Execute(m, cne, host).registers[cne.operand1] == 1 - Execute(m, ce, host).registers[ce.operand1]
  {
  }

  /** The value each data-movement opcode writes: `MOVE` copies the
      `operand2` register into the `operand1` register and `LOAD_VAL` the
      immediate; `PUSHR` appends the `operand1` register to the operand
      stack and changes nothing else. */
  lemma DataMovementResults(m: Machine, ins: Instruction, host: Host)
    requires Decode(ins.opcode) in {Some(MOVE), Some(LOAD_VAL), Some(PUSHR)}
    ensures var x, y, r := m.registers[ins.operand1], m.registers[ins.operand2], Execute(m, ins, host);
      && (Decode(ins.opcode) == Some(MOVE) ==> r == SetReg(m, ins.operand1, y))
      && (Decode(ins.opcode) == Some(LOAD_VAL) ==> r == SetReg(m, ins.operand1, ins.immediate))
      && (Decode(ins.opcode) == Some(PUSHR) ==> r.stack == m.stack + [x] && r.(stack := m.stack) == m)
  {
  }

  /** `OR`, `AND` and `XOR` write the bitwise combination of the two
      registers into the `operand1` register; the order in which the C++
      code names the operands makes no difference. */
  lemma BitwiseResults(m: Machine, ins: Instruction, host: Host)
    requires Decode(ins.opcode) in {Some(OR), Some(AND), Some(XOR)}
    ensures var x, y, r := m.registers[ins.operand1], m.registers[ins.operand2], Execute(m, ins, host);
      && (Decode(ins.opcode) == Some(OR) ==> r == SetReg(m, ins.operand1, Or(x, y)))
      && (Decode(ins.opcode) == Some(AND) ==> r == SetReg(m, ins.operand1, And(x, y)))
      && (Decode(ins.opcode) == Some(XOR) ==> r == SetReg(m, ins.operand1, Xor(x, y)))
  {
    var x, y := m.registers[ins.operand1], m.registers[ins.operand2];
    OperandOrderIrrelevant(x, y);
    if Decode(ins.opcode) == Some(OR) {
      OrStep(m, ins, host);
    } else if Decode(ins.opcode) == Some(AND) {
      AndStep(m, ins, host);
    } else {
      XorStep(m, ins, host);
    }
  }

  lemma OrStep(m: Machine, ins: Instruction, host: Host)
    requires Decode(ins.opcode) == Some(OR)
    ensures Execute(m, ins, host) == SetReg(m, ins.operand1, Or(m.registers[ins.operand2], m.registers[ins.operand1]))
  {
  }

  lemma AndStep(m: Machine, ins: Instruction, host: Host)
    requires Decode(ins.opcode) == Some(AND)
    ensures Execute(m, ins, host) == SetReg(m, ins.operand1, And(m.registers[ins.operand2], m.registers[ins.operand1]))
  {
  }

  /** `PUSHR s` then `POP r` is `MOVE r, s`: the operand stack ends as it
      began and only register `r` changes. */
  lemma PushRegisterThenPop(m: Machine, push: Instruction, pop: Instruction, host: Host)
    requires Decode(push.opcode) == Some(PUSHR) && Decode(pop.opcode) == Some(POP)
    ensures Execute(Execute(m, push, host), pop, host) ==
      Execute(m, Make(MOVE, pop.operand1, push.operand1, 0), host)
    ensures Execute(Execute(m, push, host), pop, host).stack == m.stack
  {
    var m1 := Execute(m, push, host);
    assert m1.stack[..|m1.stack| - 1] == m.stack;
  }

  /** `XOR r, s` with distinct registers, executed twice, restores the
      machine: `s ^ (s ^ r) == r`. */
  lemma XorTwiceRestores(m: Machine, ins: Instruction, host: Host)
    requires Decode(ins.opcode) == Some(XOR) && ins.operand1 != ins.operand2
    ensures Execute(Execute(m, ins, host), ins, host) == m
  {
    var a, x, y := ins.operand1, m.registers[ins.operand1], m.registers[ins.operand2];
    XorStep(m, ins, host);
    var m1 := SetReg(m, a, Xor(y, x));
    assert m1.registers[ins.operand2] == y;
    XorStep(m1, ins, host);
    XorUndone(x, y);
    SetRegUndone(m, a, Xor(y, x));
  }

  lemma XorUndone(x: i64, y: i64)
    ensures Xor(y, Xor(y, x)) == x
  {
    OperandOrderIrrelevant(y, x);
    OperandOrderIrrelevant(y, Xor(x, y));
    XorCancels(x, y);
  }

  /** Writing a register back to its old value undoes the first write. */
  lemma SetRegUndone(m: Machine, i: uint8, v: i64)
    ensures SetReg(SetReg(m, i, v), i, m.registers[i]) == m
  {
    assert m.registers[i := v][i := m.registers[i]] == m.registers;
  }

  lemma XorStep(m: Machine, ins: Instruction, host: Host)
    requires Decode(ins.opcode) == Some(XOR)
    ensures Execute(m, ins, host) == SetReg(m, ins.operand1, Xor(m.registers[ins.operand2], m.registers[ins.operand1]))
  {
  }

  /** `NEG r` stores `-r - 1`, and executed twice restores the machine. */
  lemma NegTwiceRestores(m: Machine, ins: Instruction, host: Host)
    requires Decode(ins.opcode) == Some(NEG)
    ensures Execute(m, ins, host).registers[ins.operand1] as int == -(m.registers[ins.operand1] as int) - 1
    ensures Execute(Execute(m, ins, host), ins, host) == m
  {
    var a, x := ins.operand1, m.registers[ins.operand1];
    NegStep(m, ins, host);
    var m1 := SetReg(m, a, Not(x));
    NegStep(m1, ins, host);
    assert Not(Not(x)) == x;
    SetRegUndone(m, a, Not(x));
  }

  lemma NegStep(m: Machine, ins: Instruction, host: Host)
    requires Decode(ins.opcode) == Some(NEG)
    ensures Execute(m, ins, host) == SetReg(m, ins.operand1, Not(m.registers[ins.operand1]))
  {
  }

  /** `JEZR` and `JEOR` read `operand1` for both the condition and the
      target, so a taken `JEZR` always lands on 0 and a taken `JEOR` on 1;
      an untaken one changes nothing. */
  lemma RegisterBranchTargets(m: Machine, ins: Instruction, host: Host)
    ensures var x := m.registers[ins.operand1];
      Decode(ins.opcode) == Some(JEZR) ==>
        Execute(m, ins, host) == (if x == 0 then m.(pc := 0) else m)
    ensures var x := m.registers[ins.operand1];
      Decode(ins.opcode) == Some(JEOR) ==>
        Execute(m, ins, host) == (if x == 1 then m.(pc := 1) else m)
  {
  }

  /** `JMP` and `JMPR` always jump, to the immediate and to the value of
      the `operand1` register; `JEZ` and `JEO` jump to the immediate exactly
      when that register holds 0 or 1, and otherwise change nothing. No
      branch touches anything but the counter. */
  lemma DirectBranchTargets(m: Machine, ins: Instruction, host: Host)
    ensures Decode(ins.opcode) == Some(JMP) ==> Execute(m, ins, host) == m.(pc := ins.immediate)
    ensures Decode(ins.opcode) == Some(JMPR) ==>
      Execute(m, ins, host) == m.(pc := m.registers[ins.operand1])
    ensures var x, r := m.registers[ins.operand1], Execute(m, ins, host);
      Decode(ins.opcode) == Some(JEZ) ==>
        r.(pc := m.pc) == m && (r.pc == ins.immediate || r.pc == m.pc) &&
        (x == 0 ==> r.pc == ins.immediate) && (x != 0 ==> r == m)
    ensures var x, r := m.registers[ins.operand1], Execute(m, ins, host);
      Decode(ins.opcode) == Some(JEO) ==>
        r.(pc := m.pc) == m && (r.pc == ins.immediate || r.pc == m.pc) &&
        (x == 1 ==> r.pc == ins.immediate) && (x != 1 ==> r == m)
  {
  }

  /** Every memory-access opcode crashes with its own reason when either
      operand register holds 0, and `READ`/`WRITE` also when their byte
      count is 0. When the guard passes, `READ_<n>` sets only its
      destination and the other accesses change no modelled state. */
  lemma MemoryAccessGuard(m: Machine, ins: Instruction, host: Host)
    requires Decode(ins.opcode).Some? && IsMemoryAccess(Decode(ins.opcode).value)
    ensures var op := Decode(ins.opcode).value;
      var x, y := m.registers[ins.operand1], m.registers[ins.operand2];
      var guard := x != 0 && y != 0 && (op !in {READ, WRITE} || ins.immediate != 0);
      && (!guard ==> Execute(m, ins, host) == Crash(m, MemoryFault(op)))
      && (guard && op in {READ_1, READ_2, READ_4, READ_8} ==>
            Execute(m, ins, host) == SetReg(m, ins.operand1, Execute(m, ins, host).registers[ins.operand1]))
      && (guard && op !in {READ_1, READ_2, READ_4, READ_8} ==> Execute(m, ins, host) == m)
  {
  }

  /** A byte that names no opcode ends in `Crashed` with the reason of the
      `CRASH` opcode, because the default branch falls through into it. */
  lemma UnnamedOpcodeCrashes(m: Machine, ins: Instruction, host: Host)
    requires 40 < ins.opcode
    ensures Execute(m, ins, host) == Crash(m, CRASH_CALLED)
    ensures Execute(m, ins, host) == Execute(m, Make(CRASH, 0, 0, 0), host)
  {
  }
}
