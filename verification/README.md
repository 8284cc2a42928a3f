# HeVM in Dafny

HeVM is a small register machine embedded in a C++ host. A host builds a
program, which is a vector of `Instruction`s, and a constant pool of bytes.
It then creates a `VirtualMachine`, binds named external functions and drives
the machine with `run()`, `pause()`, `step()` and `crash()`. A background
thread runs the fetch–execute loop `thread_work`, and `RunInstruction` gives
the meaning of each of the 41 opcodes.

This project models that engine as pure functions over an immutable machine
state and proves what the engine promises.

Modules:

- `Words` (`words.dfy`): the machine words.
  - `int64_t` is `i64`, a subset of `int`, and bytes are `uint8`.
  - Signed wrap-around (`Wrap`) and the unsigned view used by the size comparisons (`Unsigned`).
  - Division truncating toward zero (`Quot`, `Rem`).
  - `^`, `|`, `&` and `~` on 64-bit two's-complement patterns, defined bit by bit (`Bitwise`).
- `Isa` (`isa.dfy`):
  - the `InstructionSet` numbering, `NOP` = 0 to `CRASH` = 40;
  - an opcode stored as a byte, so bytes 41–255 are representable but unnamed;
  - the `Instruction` record.
- `Vm` (`vm.dfy`):
  - the machine state: call stack, program, crash reason, 256 registers, counter, operand stack, constant pool, registry of external functions, status, and whether the engine loop has exited;
  - the five statuses;
  - construction;
  - the controls `run`, `pause`, `step` and `crash`;
  - `bind_function`, `stack_trace` and `crash_reason`.
- `Exec` (`exec.dfy`):
  - `RunInstruction` as `Execute`;
  - `CALL_EXT` name resolution through the NUL-terminated name in the pool;
  - the built-ins `alloc` and `free`.
- `Engine` (`engine.dfy`): one iteration of the `thread_work` loop as `Tick`, `Ticks` for `n` iterations with no control operation between them, and `Replay` for any sequence of controls, bindings and iterations.
- `InstructionProperties` (`instruction_properties.dfy`) and `ControlProperties` (`control_properties.dfy`): the properties of single instructions and of runs of iterations.
- `Demo` (`demo.dfy`): the sample host program, replayed as a concrete run.

The registry is a `map<ByteString, Callback>`, so a name has at most one
callback. A `ByteString` is a string whose characters are all below 256, as the
bytes of a C++ `std::string` are. A callback is `Alloc`, `Free` or
`External(id)`. The behaviour of host callbacks is a parameter,
`Host.callback: (nat, Machine) -> Machine`. The program is never written by any
operation. After a callback returns, the model puts back the call stack and the
program, so callbacks that run instructions themselves are not modelled (see
"Left out").

The model follows the code where it is surprising:

- A `Step` iteration only turns `Step` back into `Paused`. It executes no instruction.
- `CALL` pushes the already advanced counter plus one. A `CALL` at index `p` therefore returns to `p + 2`.
- `RET` reads the top of the call stack without popping it.
- `JEZR` and `JEOR` read `operand1` both as the condition and as the target.
- The `default` branch has no `break` and falls into `CRASH`, so an unnamed opcode ends with the reason of `CRASH`.
- The fetch test and the `CALL_EXT` range test compare a signed value with a `size()`. A negative counter or address therefore counts as out of range.
- The loop exits the first time an iteration sees `Crashed` or `Stopped`, and nothing restarts it: a later `run()` or `step()` changes the status and executes nothing.
- `JMP 0` in the sample program jumps back to the `PUSH`, so "Hello World!" is printed on every pass. `Demo.PrintsForever` proves that the machine returns to its start every four iterations.

## Model

| member | source | states |
|---|---|---|
| `Words.Wrap` | src/hevm.cc:163-180 | The result of `+`, `-` and `*` on `int64_t` is the unique signed 64-bit value congruent to the exact result modulo 2^64. It equals the exact result when that fits. |
| `Words.Unsigned` | src/hevm.cc:47 | The unsigned view of a signed word is below 2^64 and congruent to it. Non-negative values are unchanged. Negative values land at 2^63 or above, so they exceed any real size. |
| `Words.Quot` | src/hevm.cc:181-186 | C++ `/`: the quotient's multiple of the divisor never exceeds the dividend in magnitude and misses it by less than one divisor. A non-zero quotient is negative exactly when the operand signs differ (rounding toward zero). |
| `Words.Rem` | src/hevm.cc:187-192 | C++ `%`: `a == (a / b) * b + r`, where `r` is smaller than `b` in magnitude and takes the sign of `a`. |
| `Words.QuotientFits` | src/hevm.cc:181-186 | Except for a zero divisor and `INT64_MIN / -1`, the truncated quotient of two `int64_t` values is itself an `int64_t`. |
| `Words.Signed` | src/hevm.cc:296-318 | The signed reading of a 64-bit pattern is the inverse of `Unsigned`. |
| `Words.BitwiseBits` | src/hevm.cc:296-318 | Below position `n`, each bit of a bitwise combination is the bit operator applied to the operands' bits at that position. |
| `Words.BitsOfResult` | src/hevm.cc:296-318 | Bit `k` of `a ^ b`, `a OR b`, `a & b` and `~a` on `int64_t`, for `k < 64`, is the xor, or, and of, or complement of the operands' bits `k`. |
| `Words.Not` | src/hevm.cc:308-312 | `~a` on `int64_t` equals `-a - 1`. |
| `Words.XorCancels` | src/hevm.cc:296-301 | `(a ^ b) ^ b == a` on `int64_t`. |
| `Words.OperandOrderIrrelevant` | src/hevm.cc:296-318 | Xor, or and and are commutative, so the source's `src op dst` operand order does not matter. |
| `Isa.Encode` | include/hevm.hh:15-57 | Every named opcode is numbered at most 40. |
| `Isa.Decode` | include/hevm.hh:15-57 | A byte names an opcode exactly when it is at most 40. |
| `Isa.EncodeDecode` | include/hevm.hh:15-57 | Every byte from 0 to 40 is the number of the opcode it decodes to, so the numbering has no gaps. |
| `Isa.DecodeEncode` | include/hevm.hh:15-57 | Decoding an opcode's number gives the opcode back, so no two opcodes share a number. |
| `Isa.Make` | include/hevm.hh:59-64 | An instruction built from an opcode decodes to that opcode. |
| `Vm.Create` | src/hevm.cc:5-20 | A new machine holds the given program and pool. All 256 registers are 0 and `pc` is 0. Both stacks are empty, the status is `Paused` and the engine loop is running. Exactly `alloc` and `free` are bound, to the two built-ins. |
| `Vm.Run` | src/hevm.cc:22-24 | `run()` sets the status to `Running` and changes nothing else. |
| `Vm.Pause` | src/hevm.cc:35-37 | `pause()` sets the status to `Paused` and changes nothing else. |
| `Vm.SingleStep` | src/hevm.cc:347-349 | `step()` sets the status to `Step` and changes nothing else. |
| `Vm.Crash` | src/hevm.cc:351-354 | `crash(r)` sets `Crashed`, records `r` as the reason and changes nothing else. |
| `Vm.BindFunction` | src/hevm.cc:356-358 | After binding, the name maps to the new callback, whether or not it was bound before. The key set gains at most that name, and every other binding is unchanged. |
| `Vm.StackTrace` | src/hevm.cc:341-345 | The trace is the call stack when the machine is `Crashed` or `Paused`, and empty in every other status. |
| `Exec.CString` | src/hevm.cc:203-204 | The name read at an offset is a run of the pool starting there. It contains no NUL and ends at a NUL or at the end of the pool. |
| `Exec.CStringEndsAtFirstNul` | src/hevm.cc:203-204 | Any NUL-free run that ends at a NUL or at the pool's end is exactly the name read there. |
| `Exec.Invoke` | src/hevm.cc:208 | After the bound callback runs, the program and the call stack, the protected fields, are as they were. |
| `Exec.CallExternal` | src/hevm.cc:197-210 | In a pool of at most 2^63 bytes, an address that is negative or past the pool crashes with the address in the reason. An unbound name crashes with the name in the reason. A bound name runs its callback. The program and call stack never change. |
| `Exec.Execute` | src/hevm.cc:57-339 | An instruction never changes the program. Only `CALL` changes the call stack, and no instruction pops it. |
| `Engine.Tick` | src/hevm.cc:39-55 | One loop iteration. Once the loop has exited, nothing changes. Otherwise a `Crashed` or `Stopped` machine leaves the loop for good, a `Paused` machine is unchanged, and `Step` becomes `Paused`. `Running` with `pc` inside the program advances `pc` and executes the old instruction. Any other `pc` stops the machine. The program is kept and the call stack only grows. |
| `InstructionProperties.OperandsNameRegisters` | include/hevm.hh:61-62 | Both operand fields index the 256-entry register file. |
| `InstructionProperties.CallPushesReturnAddress` | src/hevm.cc:193-196 | `CALL` pushes the advanced counter plus one, jumps to the `operand1` register and changes nothing else. |
| `InstructionProperties.RetReadsWithoutPopping` | src/hevm.cc:211-218 | `RET` jumps to the top of the call stack and leaves the call stack as it was. On an empty call stack it crashes with "Invalid instruction RET: Callstack is empty!". |
| `InstructionProperties.PushRegisterThenPop` | src/hevm.cc:322-332 | `PUSHR s` followed by `POP r` is `MOVE r, s`, and the operand stack ends as it began. |
| `InstructionProperties.PushThenPop` | src/hevm.cc:319-332 | `PUSH x` followed by `POP r` sets `r` to `x` and leaves the operand stack, and everything else, as before. |
| `InstructionProperties.PopEmptyCrashes` | src/hevm.cc:325-329 | `POP` on an empty operand stack crashes with "Invalid pop instruction: stack is empty!" and writes no register. |
| `InstructionProperties.CallExternalResolution` | src/hevm.cc:197-209 | An address outside the pool, negative ones included, crashes with the address in the reason. An unbound name crashes with the name in the reason. A bound name runs its callback exactly once. |
| `InstructionProperties.LastBindingWins` | src/hevm.cc:356-358 | Binding a name twice equals binding it only the second time, and `CALL_EXT` then runs the second callback. |
| `InstructionProperties.BuiltinsAreStubs` | src/hevm.cc:360-367 | `alloc` crashes exactly when the operand stack is empty and never pops. `free` changes nothing. |
| `InstructionProperties.DataMovementResults` | src/hevm.cc:62-70 | `MOVE` writes the `operand2` register and `LOAD_VAL` the immediate into the `operand1` register, changing nothing else. `PUSHR` (src/hevm.cc:322-324) appends the `operand1` register to the operand stack and changes nothing else. |
| `InstructionProperties.BitwiseResults` | src/hevm.cc:296-318 | `OR`, `AND` and `XOR` write the bitwise combination of the two registers into the `operand1` register, changing nothing else. |
| `InstructionProperties.DestinationOnly` | src/hevm.cc:62-70 | `MOVE`, `LOAD_VAL`, the arithmetic, comparison and bitwise opcodes, and defined `DIV`/`REM`, change the `operand1` register and nothing else. |
| `InstructionProperties.ArithmeticResults` | src/hevm.cc:163-192 | The register receives the sum, difference or product modulo 2^64, or the truncated quotient or remainder. An undefined division crashes and does not write the register. |
| `InstructionProperties.ComparisonResults` | src/hevm.cc:260-295 | Comparisons are signed and yield only 0 or 1, with 1 exactly when the relation holds. |
| `InstructionProperties.NotEqualComplementsEqual` | src/hevm.cc:284-295 | On the same operands, `CNE` yields `1 - CE`. |
| `InstructionProperties.XorTwiceRestores` | src/hevm.cc:296-301 | `XOR r, s` with `r != s`, executed twice, restores the whole machine. |
| `InstructionProperties.NegTwiceRestores` | src/hevm.cc:308-312 | `NEG r` stores `-r - 1`, and executing it twice restores the whole machine. |
| `InstructionProperties.DirectBranchTargets` | src/hevm.cc:219-243 | `JMP` sets `pc` to the immediate and `JMPR` to the `operand1` register. `JEZ` and `JEO` jump to the immediate exactly when that register holds 0 or 1 and otherwise change nothing. |
| `InstructionProperties.RegisterBranchTargets` | src/hevm.cc:244-259 | A taken `JEZR` sets `pc` to 0 and a taken `JEOR` sets it to 1. An untaken one changes nothing. |
| `InstructionProperties.MemoryAccessGuard` | src/hevm.cc:71-162 | Each `READ*`/`WRITE*` crashes with its own reason when an operand register holds 0, and `READ`/`WRITE` also when the byte count is 0. Past the guard, `READ_<n>` writes only its destination and the others change no modelled state. |
| `InstructionProperties.UnnamedOpcodeCrashes` | src/hevm.cc:333-337 | An unnamed opcode byte ends `Crashed` with "CRASH instruction called!", exactly like `CRASH`. |
| `ControlProperties.ControlsAreIdempotent` | src/hevm.cc:22-37 | Repeating `run`, `pause` or `step` equals calling it once, and of `run` and `pause` the later call decides. |
| `ControlProperties.TraceVisibility` | src/hevm.cc:341-345 | The call stack is visible after `pause()` and `crash()` and hidden after `run()` and `step()`. |
| `ControlProperties.IdleMachineIsFrozen` | src/hevm.cc:40-46 | No number of iterations changes a paused machine or one whose loop has exited. |
| `ControlProperties.HaltedMachineExits` | src/hevm.cc:40 | A stopped or crashed machine leaves the loop at the next iteration, and nothing else changes then or later. |
| `ControlProperties.RestartAfterExitRunsNothing` | src/hevm.cc:22-24 | Once the loop has exited, `run()` or `step()` only writes the status; no later iteration executes anything. |
| `ControlProperties.ExitIsFinal` | src/hevm.cc:39-55 | After the loop has exited, no sequence of controls, bindings and iterations changes the counter, the registers, either stack, the program or the pool. |
| `ControlProperties.PauseStopsExecution` | src/hevm.cc:35-46 | After `pause()`, no number of iterations changes the machine, and its call stack is visible. |
| `ControlProperties.StepExecutesNothing` | src/hevm.cc:41-43 | `step()` on a paused machine is consumed by the next iteration, which leaves the machine exactly as it was before `step()`. After the loop has exited, nothing consumes it. |
| `ControlProperties.CrashIsTerminal` | src/hevm.cc:351-354 | After `crash()` the next iteration leaves the loop and nothing else changes again; the reason and call stack stay readable. |
| `ControlProperties.CrashReasonIsLastRecorded` | src/hevm.cc:369-371 | `crash_reason()` returns the reason the last `crash()` recorded: empty on a new machine, replaced by a later crash, and left alone by `run()`, `pause()`, `step()` and `bind_function`. |
| `ControlProperties.RunningOffTheEndStops` | src/hevm.cc:47-53 | A running machine whose counter is negative or past the program stops at the next iteration, leaves the loop at the one after, and changes nothing else. |
| `ControlProperties.CallThenRet` | src/hevm.cc:193-218 | A `CALL` at index `p` to a `RET` resumes at `p + 2` with the return address left on the call stack; after the loop has exited, neither runs. |
| `ControlProperties.OnlyCallTouchesCallStack` | src/hevm.cc:193-196 | An iteration changes the call stack only when it fetches a `CALL`. |
| `ControlProperties.ProgramIsFixed` | include/hevm.hh:71-75 | No number of iterations changes the program. |
| `ControlProperties.CallStackOnlyGrows` | include/hevm.hh:71-75 | Every earlier call stack is a prefix of every later one. |
| `ControlProperties.FreshMachineWaits` | src/hevm.cc:5-20 | A new machine is unchanged by any number of iterations. Its call-stack trace is visible and empty, and it records no reason. |
| `ControlProperties.RunStartsAtZero` | src/hevm.cc:47-53 | After `run()` on a new machine, the first iteration executes instruction 0 with `pc` already at 1. An empty program stops. |
| `ControlProperties.Periodic` | src/hevm.cc:39-55 | A machine that returns to itself after `p` iterations returns after every multiple of `p`. |
| `Demo.Puts` | demo/demo.cpp:4-11 | `he_puts` without the console crashes on an empty stack and otherwise pops one offset. |
| `Demo.PoolStrings` | demo/demo.cpp:21-22 | The pool holds "puts" at offset 0 and "Hello World!" at offset 5. |
| `Demo.OnePass` | demo/demo.cpp:14-26 | After two iterations the offset of "Hello World!" is on the stack for `puts`. After four, the machine is back at its start. |
| `Demo.PrintsForever` | demo/demo.cpp:14-26 | After every whole number of passes the machine is back at its start and still running, so it never stops. |

## Left out

- Threads and atomics are not modelled: `std::thread`, the `std::atomic` status, `yield` and the destructor's join or detach. Control operations and loop iterations are separate transitions that a caller interleaves (`Engine.Replay`), and `Ticks` covers runs with no control between iterations. The loop's exit is part of the state: once an iteration sees `Crashed` or `Stopped`, no later iteration does anything, whatever `run()` or `step()` writes afterwards.
- The memory effects of `READ*`/`WRITE*` on raw host pointers are not modelled. The value a `READ_<n>` loads comes from the `Host.load` parameter. `WRITE*` changes no modelled state. Generic `READ` copies from the register to host memory, the reverse of what its name suggests, so it changes no modelled state either.
- The bodies of host callbacks are a parameter. A callback may change every public field and also the reason, which C++ allows it to change only through `crash()`.
- Exec.Invoke: a callback that itself calls `RunInstruction`, a friend function it can reach, could push the call stack (`CALL`). The model restores the call stack and the program after every callback, so such callbacks are not modelled, and `ControlProperties.OnlyCallTouchesCallStack` relies on this.
- Registry names are `ByteString`s, strings of characters below 256, one character per byte of the C++ `std::string`. Multi-byte encodings of names are not modelled.
- Signed overflow in `ADD`, `SUB` and `MUL` is undefined in C++. The model wraps modulo 2^64.
- `DIV` and `REM` by zero, and `INT64_MIN / -1`, are undefined in C++. The model crashes with its own reason, `UNDEFINED_DIVISION`.
- A `CALL_EXT` name with no NUL before the pool's end is undefined in C++. The model reads up to the end of the pool.
- A `CALL` whose advanced counter is `INT64_MAX` overflows in C++. The model wraps it.
- The decimal text in the unknown-address reason is modelled by `Decimal`. Nothing is proved about it beyond its use in the reason.
- XOR/OR/AND/NEG are defined by bit-by-bit arithmetic on two's-complement patterns (`Words.Bitwise`), not by 64-bit bit-vector conversions. `Words.BitsOfResult` states their bit-level meaning.
- Engine.Tick: its contract states the fetch case only when the program has fewer than 2^63 instructions, so that the counter plus one cannot overflow.
- Engine.Tick: its contract states the stop case only when the program has at most 2^63 instructions. Only then does the unsigned reading of a negative counter fall outside the program.
- Exec.CallExternal: its address case is stated only for pools of at most 2^63 bytes. For larger pools, negative addresses would alias real offsets.
- InstructionProperties.CallExternalResolution: its contract holds only for pools of at most 2^63 bytes. For larger pools, negative addresses would alias real offsets.
- InstructionProperties.CallPushesReturnAddress: its contract assumes a counter below 2^63 - 1, so the pushed value is the plain sum.
- ControlProperties.CallThenRet: its contract assumes a program shorter than 2^63 - 2.
- The console output of `puts` in the sample program is not modelled. `Demo.Printed` names the text the call would print.
