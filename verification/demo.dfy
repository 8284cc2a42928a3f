/** The sample host program: push the offset of "Hello World!", load the
    offset of the name "puts", call the external function bound to it, and
    jump back to the start. The host's `puts` callback is modelled without
    the console: it pops the offset it would print from. */
module Demo {
  import opened Words
  import opened Isa
  import opened Vm
  import opened Exec
  import opened Engine
  import opened InstructionProperties
  import opened ControlProperties

  const PUTS_NAME: ByteString := "puts"
  const PUTS_EMPTY: string := "Function he_puts: invalid arguments, stack is empty!"
  /** The registry identifier of the host's `puts` callback. */
  const PUTS_ID: nat := 0

  /** `PUSH 5; LOAD_VAL r1, 0; CALL_EXT r1; JMP 0`. */
  const PROGRAM: seq<Instruction> := [
    Make(PUSH, 0, 0, 5),
    Make(LOAD_VAL, 1, 0, 0),
    Make(CALL_EXT, 1, 0, 0),
    Make(JMP, 0, 0, 0)]

  /** The bytes of the C literal "puts\0Hello World!" with its terminating
      NUL: the name at offset 0 and the text at offset 5. */
  const POOL: seq<uint8> := NAME_BYTES + [0] + TEXT_BYTES + [0]
  const NAME_BYTES: seq<uint8> := [112, 117, 116, 115]
  const TEXT_BYTES: seq<uint8> := [72, 101, 108, 108, 111, 32, 87, 111, 114, 108, 100, 33]

  /** `he_puts` with the printing left out: crash on an empty operand
      stack, otherwise pop the offset of the text to print. */
  function Puts(m: Machine): (r: Machine)
    ensures |m.stack| == 0 ==> r == Crash(m, PUTS_EMPTY)
    ensures |m.stack| > 0 ==> r == m.(stack := m.stack[..|m.stack| - 1])
  {
    if |m.stack| == 0 then Crash(m, PUTS_EMPTY) else m.(stack := m.stack[..|m.stack| - 1])
  }

  /** The text `puts` prints for a machine about to make the call: the
      string at the offset on top of the operand stack. */
  function Printed(m: Machine): string
  {
    if |m.stack| > 0 && 0 <= Top(m.stack) <= |m.pool| then NameAt(m.pool, Top(m.stack)) else ""
  }

  /** The host: callback `PUTS_ID` is `Puts`; the program reads no memory. */
  function DemoHost(): Host
  {
    Host((id: nat, m: Machine) => if id == PUTS_ID then Puts(m) else m, (width: nat, addr: i64) => 0)
  }

  /** The machine just after `bind_function("puts", he_puts)` and `run()`. */
  function Start(): Machine
  {
    Run(BindFunction(Create(PROGRAM, POOL), PUTS_NAME, External(PUTS_ID)))
  }

  /** The pool holds the name "puts" at offset 0 and "Hello World!" at
      offset 5. */
  lemma PoolStrings()
    ensures NameAt(POOL, 0) == PUTS_NAME
    ensures NameAt(POOL, 5) == "Hello World!"
  {
    assert POOL[0..4] == NAME_BYTES;
    CStringEndsAtFirstNul(POOL, 0, 4);
    NameText();
    assert POOL[5..17] == TEXT_BYTES;
    CStringEndsAtFirstNul(POOL, 5, 12);
    HelloText();
  }

  lemma NameText()
    ensures Text(NAME_BYTES) == PUTS_NAME
  {
    var s := Text(NAME_BYTES);
    assert s[0] == 'p' && s[1] == 'u' && s[2] == 't' && s[3] == 's';
  }

  lemma HelloText()
    ensures Text(TEXT_BYTES) == "Hello World!"
  {
    var s := Text(TEXT_BYTES);
    assert s[0] == 'H' && s[1] == 'e' && s[2] == 'l' && s[3] == 'l' && s[4] == 'o' && s[5] == ' ';
    assert s[6] == 'W' && s[7] == 'o' && s[8] == 'r' && s[9] == 'l' && s[10] == 'd' && s[11] == '!';
  }

  /** The state after the first `k` iterations of a pass, `k < 4`: the
      counter at `k`, and the offset 5 on the operand stack between the
      `PUSH` and the `CALL_EXT`. */
  function Pass(k: nat): Machine
    requires k < 4
  {
    Start().(pc := k, stack := if k == 1 || k == 2 then [5] else [])
  }

  lemma PushStep()
    ensures Tick(Pass(0), DemoHost()) == Pass(1)
  {
  }

  lemma LoadStep()
    ensures Tick(Pass(1), DemoHost()) == Pass(2)
  {
    var m := Pass(1);
    assert m.registers[1] == 0;
    assert m.registers[1 := 0] == m.registers;
  }

  lemma CallStep()
    ensures Tick(Pass(2), DemoHost()) == Pass(3)
  {
    var host := DemoHost();
    var m := Pass(2).(pc := 3);
    assert Tick(Pass(2), host) == Execute(m, PROGRAM[2], host);
    assert CallTarget(m, PROGRAM[2]) == 0;
    PoolStrings();
    assert NameAt(m.pool, 0) == PUTS_NAME;
    assert m.externals[PUTS_NAME] == External(PUTS_ID);
    CallExternalResolution(m, PROGRAM[2], host);
    assert Invoke(m, External(PUTS_ID), host) == Puts(m);
  }

  lemma JumpStep()
    ensures Tick(Pass(3), DemoHost()) == Start()
  {
  }

  /** The first `k` iterations of a pass reach `Pass(k)`. */
  lemma {:induction false} PassPrefix(k: nat)
    requires k < 4
    ensures Ticks(Start(), DemoHost(), k) == Pass(k)
    decreases k
  {
    if k == 0 {
      assert Start() == Pass(0);
    } else {
      PassPrefix(k - 1);
      TicksLast(Start(), DemoHost(), k - 1);
      if k == 1 { PushStep(); }
      else if k == 2 { LoadStep(); }
      else { CallStep(); }
    }
  }

  /** One pass through the loop: after two iterations "Hello World!" is
      about to be printed, and after four the machine is back where it
      started, so the program prints the text again on every pass and never
      stops. */
  lemma OnePass()
    ensures Ticks(Start(), DemoHost(), 2).pc == 2
    ensures Ticks(Start(), DemoHost(), 2).stack == [5]
    ensures Printed(Ticks(Start(), DemoHost(), 2)) == "Hello World!"
    ensures Ticks(Start(), DemoHost(), 4) == Start()
  {
    PassPrefix(2);
    PoolStrings();
    PassPrefix(3);
    TicksLast(Start(), DemoHost(), 3);
    JumpStep();
  }

  /** The loop never ends: after every whole number of passes the machine is
      back at its start, running. */
  lemma PrintsForever(k: nat)
    ensures Ticks(Start(), DemoHost(), 4 * k) == Start()
    ensures Ticks(Start(), DemoHost(), 4 * k).status == Running
  {
    OnePass();
    Periodic(Start(), DemoHost(), 4, k);
  }
}
