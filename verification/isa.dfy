/** The HeVM instruction set: the opcode vocabulary, its byte encoding, and
    the decoded instruction record a program is made of. */
module Isa {
  import opened Words

  datatype Option<+T> = None | Some(value: T)

  /** The named opcodes, in the order in which the instruction-set enum
      declares them; that order is their byte value. */
  datatype Opcode =
    | NOP
    | MOVE
    | LOAD_VAL
    | READ_1
    | READ_2
    | READ_4
    | READ_8
    | READ
    | WRITE_1
    | WRITE_2
    | WRITE_4
    | WRITE_8
    | WRITE
    | ADD
    | SUB
    | MUL
    | DIV
    | REM
    | CALL
    | CALL_EXT
    | RET
    | JMPR
    | JMP
    | JEZ
    | JEO
    | JEZR
    | JEOR
    | CL
    | CLE
    | CG
    | CGE
    | CE
    | CNE
    | XOR
    | OR
    | NEG
    | AND
    | PUSH
    | PUSHR
    | POP
    | CRASH

  /** The byte value of a named opcode. */
  function Encode(op: Opcode): (b: uint8)
    ensures b <= 40
  {
    match op
    case NOP => 0
    case MOVE => 1
    case LOAD_VAL => 2
    case READ_1 => 3
    case READ_2 => 4
    case READ_4 => 5
    case READ_8 => 6
    case READ => 7
    case WRITE_1 => 8
    case WRITE_2 => 9
    case WRITE_4 => 10
    case WRITE_8 => 11
    case WRITE => 12
    case ADD => 13
    case SUB => 14
    case MUL => 15
    case DIV => 16
    case REM => 17
    case CALL => 18
    case CALL_EXT => 19
    case RET => 20
    case JMPR => 21
    case JMP => 22
    case JEZ => 23
    case JEO => 24
    case JEZR => 25
    case JEOR => 26
    case CL => 27
    case CLE => 28
    case CG => 29
    case CGE => 30
    case CE => 31
    case CNE => 32
    case XOR => 33
    case OR => 34
    case NEG => 35
    case AND => 36
    case PUSH => 37
    case PUSHR => 38
    case POP => 39
    case CRASH => 40
  }

  /** The opcode a byte names, if any. Bytes 41 to 255 fit in the opcode
      field but name no opcode. */
  function Decode(b: uint8): (r: Option<Opcode>)
    ensures r.Some? <==> b <= 40
  {
    match b
    case 0 => Some(NOP)
    case 1 => Some(MOVE)
    case 2 => Some(LOAD_VAL)
    case 3 => Some(READ_1)
    case 4 => Some(READ_2)
    case 5 => Some(READ_4)
    case 6 => Some(READ_8)
    case 7 => Some(READ)
    case 8 => Some(WRITE_1)
    case 9 => Some(WRITE_2)
    case 10 => Some(WRITE_4)
    case 11 => Some(WRITE_8)
    case 12 => Some(WRITE)
    case 13 => Some(ADD)
    case 14 => Some(SUB)
    case 15 => Some(MUL)
    case 16 => Some(DIV)
    case 17 => Some(REM)
    case 18 => Some(CALL)
    case 19 => Some(CALL_EXT)
    case 20 => Some(RET)
    case 21 => Some(JMPR)
    case 22 => Some(JMP)
    case 23 => Some(JEZ)
    case 24 => Some(JEO)
    case 25 => Some(JEZR)
    case 26 => Some(JEOR)
    case 27 => Some(CL)
    case 28 => Some(CLE)
    case 29 => Some(CG)
    case 30 => Some(CGE)
    case 31 => Some(CE)
    case 32 => Some(CNE)
    case 33 => Some(XOR)
    case 34 => Some(OR)
    case 35 => Some(NEG)
    case 36 => Some(AND)
    case 37 => Some(PUSH)
    case 38 => Some(PUSHR)
    case 39 => Some(POP)
    case 40 => Some(CRASH)
    case _ => None
  }

  /** A byte that names an opcode is that opcode's encoding. */
  lemma EncodeDecode(b: uint8)
    requires b <= 40
    ensures Encode(Decode(b).value) == b
  {
    if b < 8 { EncodeDecodeFrom0(b); }
    else if b < 16 { EncodeDecodeFrom8(b); }
    else if b < 24 { EncodeDecodeFrom16(b); }
    else if b < 32 { EncodeDecodeFrom24(b); }
    else { EncodeDecodeFrom32(b); }
  }

  lemma EncodeDecodeFrom0(b: uint8)
    requires 0 <= b < 8
    ensures Encode(Decode(b).value) == b
  {
    match b
    case 0 => assert Encode(NOP) == 0;
    case 1 => assert Encode(MOVE) == 1;
    case 2 => assert Encode(LOAD_VAL) == 2;
    case 3 => assert Encode(READ_1) == 3;
    case 4 => assert Encode(READ_2) == 4;
    case 5 => assert Encode(READ_4) == 5;
    case 6 => assert Encode(READ_8) == 6;
    case 7 => assert Encode(READ) == 7;
  }

  lemma EncodeDecodeFrom8(b: uint8)
    requires 8 <= b < 16
    ensures Encode(Decode(b).value) == b
  {
    match b
    case 8 => assert Encode(WRITE_1) == 8;
    case 9 => assert Encode(WRITE_2) == 9;
    case 10 => assert Encode(WRITE_4) == 10;
    case 11 => assert Encode(WRITE_8) == 11;
    case 12 => assert Encode(WRITE) == 12;
    case 13 => assert Encode(ADD) == 13;
    case 14 => assert Encode(SUB) == 14;
    case 15 => assert Encode(MUL) == 15;
  }

  lemma EncodeDecodeFrom16(b: uint8)
    requires 16 <= b < 24
    ensures Encode(Decode(b).value) == b
  {
    match b
    case 16 => assert Encode(DIV) == 16;
    case 17 => assert Encode(REM) == 17;
    case 18 => assert Encode(CALL) == 18;
    case 19 => assert Encode(CALL_EXT) == 19;
    case 20 => assert Encode(RET) == 20;
    case 21 => assert Encode(JMPR) == 21;
    case 22 => assert Encode(JMP) == 22;
    case 23 => assert Encode(JEZ) == 23;
  }

  lemma EncodeDecodeFrom24(b: uint8)
    requires 24 <= b < 32
    ensures Encode(Decode(b).value) == b
  {
    match b
    case 24 => assert Encode(JEO) == 24;
    case 25 => assert Encode(JEZR) == 25;
    case 26 => assert Encode(JEOR) == 26;
    case 27 => assert Encode(CL) == 27;
    case 28 => assert Encode(CLE) == 28;
    case 29 => assert Encode(CG) == 29;
    case 30 => assert Encode(CGE) == 30;
    case 31 => assert Encode(CE) == 31;
  }

  lemma EncodeDecodeFrom32(b: uint8)
    requires 32 <= b < 41
    ensures Encode(Decode(b).value) == b
  {
    match b
    case 32 => assert Encode(CNE) == 32;
    case 33 => assert Encode(XOR) == 33;
    case 34 => assert Encode(OR) == 34;
    case 35 => assert Encode(NEG) == 35;
    case 36 => assert Encode(AND) == 36;
    case 37 => assert Encode(PUSH) == 37;
    case 38 => assert Encode(PUSHR) == 38;
    case 39 => assert Encode(POP) == 39;
    case 40 => assert Encode(CRASH) == 40;
  }

  /** Every named opcode survives a round trip through its byte. */
  lemma DecodeEncode(op: Opcode)
    ensures Decode(Encode(op)) == Some(op)
  {
  }

  /** One decoded instruction: an opcode byte, two register indices and a
      signed 64-bit immediate. Both indices are bytes, so each one selects
      one of the 256 registers. */
  datatype Instruction = Instruction(opcode: uint8, operand1: uint8, operand2: uint8, immediate: i64)

  /** An instruction built from a named opcode. */
  function Make(op: Opcode, operand1: uint8, operand2: uint8, immediate: i64): (ins: Instruction)
    ensures Decode(ins.opcode) == Some(op)
  {
    DecodeEncode(op);
    Instruction(Encode(op), operand1, operand2, immediate)
  }
}
