/** The BatPU2 instruction catalogue (batpu2/src/isa/mod.rs and the types
    batpu2/src/isa/macros.rs generates) and its 16-bit machine-word encoding.

    Operand fields keep the Rust field types: `a`, `b`, `c`, `imm` and
    `offset` are `u8` (here `bv8`), `addr` is `u16` (here `bv16`) and `cond`
    is `Cond`. The bit fields of the word are narrower (4, 8, 10 and 2 bits),
    so `WellFormed` states when an instruction fits its word exactly. */
module Isa {

  /** Branch conditions, in declaration order; the order is the 2-bit code. */
  datatype Cond = Zero | NotZero | Carry | NotCarry

  /** The 16 canonical instructions, one per 4-bit opcode, each carrying the
      operands of its declaration in declaration order. */
  datatype Instruction =
    | NOP
    | HLT
    | ADD(a: bv8, b: bv8, c: bv8)
    | SUB(a: bv8, b: bv8, c: bv8)
    | NOR(a: bv8, b: bv8, c: bv8)
    | AND(a: bv8, b: bv8, c: bv8)
    | XOR(a: bv8, b: bv8, c: bv8)
    | RSH(a: bv8, c: bv8)
    | LDI(a: bv8, imm: bv8)
    | ADI(a: bv8, imm: bv8)
    | JMP(addr: bv16)
    | BRH(cond: Cond, addr: bv16)
    | CAL(addr: bv16)
    | RET
    | LOD(a: bv8, b: bv8, offset: bv8)
    | STR(a: bv8, b: bv8, offset: bv8)

  /** The 2-bit code of a condition: its position in the declaration. */
  function CondCode(cond: Cond): (r: bv16)
    ensures r < 4
  {
    match cond
    case Zero => 0
    case NotZero => 1
    case Carry => 2
    case NotCarry => 3
  }

  /** The condition a 2-bit code selects. */
  function CondOf(code: bv16): (r: Cond)
    requires code < 4
    ensures CondCode(r) == code
  {
    if code == 0 then Zero
    else if code == 1 then NotZero
    else if code == 2 then Carry
    else NotCarry
  }

  /** Codes and conditions correspond one to one, so Cond has exactly the
      four cases. */
  lemma CondRoundTrip(cond: Cond)
    ensures CondOf(CondCode(cond)) == cond
  {
  }

  /** The opcode each variant is declared with (batpu2/src/isa/mod.rs:7-22). */
  function Opcode(i: Instruction): (r: bv8)
    ensures r < 16
  {
    match i
    case NOP => 0x0
    case HLT => 0x1
    case ADD(_, _, _) => 0x2
    case SUB(_, _, _) => 0x3
    case NOR(_, _, _) => 0x4
    case AND(_, _, _) => 0x5
    case XOR(_, _, _) => 0x6
    case RSH(_, _) => 0x7
    case LDI(_, _) => 0x8
    case ADI(_, _) => 0x9
    case JMP(_) => 0xA
    case BRH(_, _) => 0xB
    case CAL(_) => 0xC
    case RET => 0xD
    case LOD(_, _, _) => 0xE
    case STR(_, _, _) => 0xF
  }

  /** Register indices and offsets fit a nibble and addresses fit 10 bits;
      the immediate and the condition always fit their fields. */
  predicate WellFormed(i: Instruction) {
    match i
    case ADD(a, b, c) => a < 16 && b < 16 && c < 16
    case SUB(a, b, c) => a < 16 && b < 16 && c < 16
    case NOR(a, b, c) => a < 16 && b < 16 && c < 16
    case AND(a, b, c) => a < 16 && b < 16 && c < 16
    case XOR(a, b, c) => a < 16 && b < 16 && c < 16
    case RSH(a, c) => a < 16 && c < 16
    case LDI(a, _) => a < 16
    case ADI(a, _) => a < 16
    case JMP(addr) => addr < 1024
    case BRH(_, addr) => addr < 1024
    case CAL(addr) => addr < 1024
    case LOD(a, b, offset) => a < 16 && b < 16 && offset < 16
    case STR(a, b, offset) => a < 16 && b < 16 && offset < 16
    case _ => true
  }

  // Word fields. Nibbles are numbered from the most significant (0, the
  // opcode) to the least significant (3).

  function Low4(x: bv8): bv16 { (x & 0xF) as bv16 }

  function Nibble1(w: bv16): bv8 { ((w >> 8) & 0xF) as bv8 }
  function Nibble2(w: bv16): bv8 { ((w >> 4) & 0xF) as bv8 }
  function Nibble3(w: bv16): bv8 { (w & 0xF) as bv8 }
  function LowByte(w: bv16): bv8 { (w & 0xFF) as bv8 }
  function Low10(w: bv16): bv16 { w & 0x3FF }
  function CondBits(w: bv16): (r: bv16)
    ensures r < 4
  {
    (w >> 10) & 0x3
  }

  /** Three nibbles in the operand positions 1, 2 and 3. */
  function Nibbles(x: bv8, y: bv8, z: bv8): bv16 {
    (Low4(x) << 8) | (Low4(y) << 4) | Low4(z)
  }

  /** The operand bits (the low 12) of an instruction's word. Each operand is
      cut to the width of its bit field; bits a layout leaves unused are
      zero. */
  function OperandBits(i: Instruction): bv16 {
    match i
    case NOP => 0
    case HLT => 0
    case ADD(a, b, c) => Nibbles(a, b, c)
    case SUB(a, b, c) => Nibbles(a, b, c)
    case NOR(a, b, c) => Nibbles(a, b, c)
    case AND(a, b, c) => Nibbles(a, b, c)
    case XOR(a, b, c) => Nibbles(a, b, c)
    case RSH(a, c) => Nibbles(a, 0, c)
    case LDI(a, imm) => (Low4(a) << 8) | (imm as bv16)
    case ADI(a, imm) => (Low4(a) << 8) | (imm as bv16)
    case JMP(addr) => addr & 0x3FF
    case BRH(cond, addr) => (CondCode(cond) << 10) | (addr & 0x3FF)
    case CAL(addr) => addr & 0x3FF
    case RET => 0
    case LOD(a, b, offset) => Nibbles(a, b, offset)
    case STR(a, b, offset) => Nibbles(a, b, offset)
  }

  /** `Instruction::as_u16`: the opcode in the top nibble, the operands
      packed below it. */
  function Encode(i: Instruction): (w: bv16)
    ensures w >> 12 == Opcode(i) as bv16
  {
    assert OperandBits(i) < 0x1000;
    ((Opcode(i) as bv16) << 12) | OperandBits(i)
  }

  /** `From<u16> for Instruction`: the top nibble alone picks the variant and
      the rest of the word is read with that variant's layout, so every word
      decodes. */
  function Decode(w: bv16): (i: Instruction)
    ensures WellFormed(i)
    ensures Opcode(i) as bv16 == w >> 12
  {
    var op := w >> 12;
    assert op < 16;
    var a, b, c := Nibble1(w), Nibble2(w), Nibble3(w);
    if op == 0x0 then NOP
    else if op == 0x1 then HLT
    else if op == 0x2 then ADD(a, b, c)
    else if op == 0x3 then SUB(a, b, c)
    else if op == 0x4 then NOR(a, b, c)
    else if op == 0x5 then AND(a, b, c)
    else if op == 0x6 then XOR(a, b, c)
    else if op == 0x7 then RSH(a, c)
    else if op == 0x8 then LDI(a, LowByte(w))
    else if op == 0x9 then ADI(a, LowByte(w))
    else if op == 0xA then JMP(Low10(w))
    else if op == 0xB then BRH(CondOf(CondBits(w)), Low10(w))
    else if op == 0xC then CAL(Low10(w))
    else if op == 0xD then RET
    else if op == 0xE then LOD(a, b, c)
    else assert op == 0xF; STR(a, b, c)
  }

  /** The word sets none of the bits its variant ignores: the low 12 bits of
      NOP, HLT and RET, nibble 2 of RSH, and bits 10-11 of JMP and CAL. */
  predicate Canonical(w: bv16) {
    var op := w >> 12;
    && (op == 0x0 || op == 0x1 || op == 0xD ==> w & 0xFFF == 0)
    && (op == 0x7 ==> Nibble2(w) == 0)
    && (op == 0xA || op == 0xC ==> CondBits(w) == 0)
  }

  // Round trip, one layout at a time: each is a statement about bits only.

  lemma ThreeNibblesRoundTrip(op: bv16, x: bv8, y: bv8, z: bv8)
    requires op < 16 && x < 16 && y < 16 && z < 16
    ensures var w := (op << 12) | Nibbles(x, y, z);
      w >> 12 == op && Nibble1(w) == x && Nibble2(w) == y && Nibble3(w) == z
  {
  }

  lemma ImmediateRoundTrip(op: bv16, x: bv8, imm: bv8)
    requires op < 16 && x < 16
    ensures var w := (op << 12) | (Low4(x) << 8) | (imm as bv16);
      w >> 12 == op && Nibble1(w) == x && LowByte(w) == imm
  {
  }

  lemma AddressRoundTrip(op: bv16, code: bv16, addr: bv16)
    requires op < 16 && code < 4 && addr < 1024
    ensures var w := (op << 12) | (code << 10) | (addr & 0x3FF);
      w >> 12 == op && CondBits(w) == code && Low10(w) == addr
  {
  }

  lemma ArithmeticRoundTrip(i: Instruction)
    requires i.ADD? || i.SUB? || i.NOR? || i.AND? || i.XOR?
    requires WellFormed(i)
    ensures Decode(Encode(i)) == i
  {
    ThreeNibblesRoundTrip(Opcode(i) as bv16, i.a, i.b, i.c);
  }

  lemma MemoryRoundTrip(i: Instruction)
    requires i.LOD? || i.STR?
    requires WellFormed(i)
    ensures Decode(Encode(i)) == i
  {
    ThreeNibblesRoundTrip(Opcode(i) as bv16, i.a, i.b, i.offset);
  }

  lemma ShiftRoundTrip(i: Instruction)
    requires i.RSH? && WellFormed(i)
    ensures Decode(Encode(i)) == i
  {
    ThreeNibblesRoundTrip(0x7, i.a, 0, i.c);
  }

  lemma ImmediateFormRoundTrip(i: Instruction)
    requires i.LDI? || i.ADI?
    requires WellFormed(i)
    ensures Decode(Encode(i)) == i
  {
    ImmediateRoundTrip(Opcode(i) as bv16, i.a, i.imm);
  }

  lemma AddressFormRoundTrip(i: Instruction)
    requires i.JMP? || i.BRH? || i.CAL?
    requires WellFormed(i)
    ensures Decode(Encode(i)) == i
  {
    if i.BRH? {
      AddressRoundTrip(0xB, CondCode(i.cond), i.addr);
      CondRoundTrip(i.cond);
    } else {
      AddressRoundTrip(Opcode(i) as bv16, 0, i.addr);
    }
  }

  /** Decode inverts Encode on every well-formed instruction. */
  lemma DecodeEncode(i: Instruction)
    requires WellFormed(i)
    ensures Decode(Encode(i)) == i
  {
    if i.ADD? || i.SUB? || i.NOR? || i.AND? || i.XOR? {
      ArithmeticRoundTrip(i);
    } else if i.LOD? || i.STR? {
      MemoryRoundTrip(i);
    } else if i.RSH? {
      ShiftRoundTrip(i);
    } else if i.LDI? || i.ADI? {
      ImmediateFormRoundTrip(i);
    } else if i.JMP? || i.BRH? || i.CAL? {
      AddressFormRoundTrip(i);
    } else {
      ThreeNibblesRoundTrip(Opcode(i) as bv16, 0, 0, 0);
    }
  }

  /** Encoding a decoded word gives the word back exactly when the word sets
      no bit its variant ignores. */
  lemma EncodeDecode(w: bv16)
    ensures Encode(Decode(w)) == w <==> Canonical(w)
  {
    if w >> 12 == 0x0 {
      NOPWord(w);
    } else if w >> 12 == 0x1 {
      HLTWord(w);
    } else if w >> 12 == 0x2 {
      ADDWord(w);
    } else if w >> 12 == 0x3 {
      SUBWord(w);
    } else if w >> 12 == 0x4 {
      NORWord(w);
    } else if w >> 12 == 0x5 {
      ANDWord(w);
    } else if w >> 12 == 0x6 {
      XORWord(w);
    } else if w >> 12 == 0x7 {
      RSHWord(w);
    } else if w >> 12 == 0x8 {
      LDIWord(w);
    } else if w >> 12 == 0x9 {
      ADIWord(w);
    } else if w >> 12 == 0xA {
      JMPWord(w);
    } else if w >> 12 == 0xB {
      BRHWord(w);
    } else if w >> 12 == 0xC {
      CALWord(w);
    } else if w >> 12 == 0xD {
      RETWord(w);
    } else if w >> 12 == 0xE {
      LODWord(w);
    } else {
      STRWord(w);
    }
  }

  // Each word splits into its opcode and the fields of one layout.

  lemma SplitNibbles(w: bv16)
    ensures w == ((w >> 12) << 12) | Nibbles(Nibble1(w), Nibble2(w), Nibble3(w))
  {
  }

  lemma SplitImmediate(w: bv16)
    ensures w == ((w >> 12) << 12) | (Low4(Nibble1(w)) << 8) | (LowByte(w) as bv16)
  {
  }

  lemma SplitAddress(w: bv16)
    ensures w == ((w >> 12) << 12) | (CondBits(w) << 10) | (Low10(w) & 0x3FF)
  {
  }

  lemma SplitShift(w: bv16)
    ensures w == ((w >> 12) << 12) | Nibbles(Nibble1(w), 0, Nibble3(w)) <==> Nibble2(w) == 0
  {
  }

  lemma SplitBare(w: bv16)
    ensures w == (w >> 12) << 12 <==> w & 0xFFF == 0
  {
  }

  // The reverse round trip, one opcode at a time. These could be one case
  // split inside EncodeDecode, but a split over all sixteen opcodes in one
  // proof exceeds the solver's budget, so each opcode is its own lemma.

  lemma NOPWord(w: bv16)
    requires w >> 12 == 0x0
    ensures Encode(Decode(w)) == w <==> Canonical(w)
  {
    SplitBare(w);
  }

  lemma HLTWord(w: bv16)
    requires w >> 12 == 0x1
    ensures Encode(Decode(w)) == w <==> Canonical(w)
  {
    SplitBare(w);
  }

  lemma ADDWord(w: bv16)
    requires w >> 12 == 0x2
    ensures Encode(Decode(w)) == w <==> Canonical(w)
  {
    SplitNibbles(w);
  }

  lemma SUBWord(w: bv16)
    requires w >> 12 == 0x3
    ensures Encode(Decode(w)) == w <==> Canonical(w)
  {
    SplitNibbles(w);
  }

  lemma NORWord(w: bv16)
    requires w >> 12 == 0x4
    ensures Encode(Decode(w)) == w <==> Canonical(w)
  {
    SplitNibbles(w);
  }

  lemma ANDWord(w: bv16)
    requires w >> 12 == 0x5
    ensures Encode(Decode(w)) == w <==> Canonical(w)
  {
    SplitNibbles(w);
  }

  lemma XORWord(w: bv16)
    requires w >> 12 == 0x6
    ensures Encode(Decode(w)) == w <==> Canonical(w)
  {
    SplitNibbles(w);
  }

  lemma RSHWord(w: bv16)
    requires w >> 12 == 0x7
    ensures Encode(Decode(w)) == w <==> Canonical(w)
  {
    SplitShift(w);
  }

  lemma LDIWord(w: bv16)
    requires w >> 12 == 0x8
    ensures Encode(Decode(w)) == w <==> Canonical(w)
  {
    SplitImmediate(w);
  }

  lemma ADIWord(w: bv16)
    requires w >> 12 == 0x9
    ensures Encode(Decode(w)) == w <==> Canonical(w)
  {
    SplitImmediate(w);
  }

  lemma JMPWord(w: bv16)
    requires w >> 12 == 0xA
    ensures Encode(Decode(w)) == w <==> Canonical(w)
  {
    SplitAddress(w);
  }

  lemma BRHWord(w: bv16)
    requires w >> 12 == 0xB
    ensures Encode(Decode(w)) == w <==> Canonical(w)
  {
    SplitAddress(w);
  }

  lemma CALWord(w: bv16)
    requires w >> 12 == 0xC
    ensures Encode(Decode(w)) == w <==> Canonical(w)
  {
    SplitAddress(w);
  }

  lemma RETWord(w: bv16)
    requires w >> 12 == 0xD
    ensures Encode(Decode(w)) == w <==> Canonical(w)
  {
    SplitBare(w);
  }

  lemma LODWord(w: bv16)
    requires w >> 12 == 0xE
    ensures Encode(Decode(w)) == w <==> Canonical(w)
  {
    SplitNibbles(w);
  }

  lemma STRWord(w: bv16)
    requires w >> 12 == 0xF
    ensures Encode(Decode(w)) == w <==> Canonical(w)
  {
    SplitNibbles(w);
  }

  /** Encoding is one-to-one on well-formed instructions. */
  lemma EncodeInjective(i: Instruction, j: Instruction)
    requires WellFormed(i) && WellFormed(j)
    ensures Encode(i) == Encode(j) <==> i == j
  {
    if Encode(i) == Encode(j) {
      DecodeEncode(i);
      DecodeEncode(j);
    }
  }

  /** The packing of each layout, for a well-formed instruction: the fields
      sit in disjoint bit ranges below the opcode. */
  lemma EncodeLayout(i: Instruction)
    requires WellFormed(i)
    ensures i.ADD? || i.SUB? || i.NOR? || i.AND? || i.XOR? ==>
      Encode(i) == ((Opcode(i) as bv16) << 12) | ((i.a as bv16) << 8) | ((i.b as bv16) << 4) | (i.c as bv16)
    ensures i.LOD? || i.STR? ==>
      Encode(i) == ((Opcode(i) as bv16) << 12) | ((i.a as bv16) << 8) | ((i.b as bv16) << 4) | (i.offset as bv16)
    ensures i.RSH? ==> Encode(i) == 0x7000 | ((i.a as bv16) << 8) | (i.c as bv16)
    ensures i.LDI? || i.ADI? ==>
      Encode(i) == ((Opcode(i) as bv16) << 12) | ((i.a as bv16) << 8) | (i.imm as bv16)
    ensures i.JMP? || i.CAL? ==> Encode(i) == ((Opcode(i) as bv16) << 12) | i.addr
    ensures i.BRH? ==> Encode(i) == 0xB000 | (CondCode(i.cond) << 10) | i.addr
    ensures i.NOP? || i.HLT? || i.RET? ==> Encode(i) == (Opcode(i) as bv16) << 12
  {
  }

  /** The words of the to_machine_code test (batpu2/src/isa/mod.rs:49-69). */
  lemma EncodeExamples()
    ensures Encode(NOP) == 0x0000
    ensures Encode(HLT) == 0x1000
    ensures Encode(ADD(0x3, 0x4, 0x5)) == 0x2345
    ensures Encode(SUB(0x9, 0x3, 0x9)) == 0x3939
    ensures Encode(NOR(0xE, 0xE, 0xF)) == 0x4EEF
    ensures Encode(AND(0x4, 0x0, 0x5)) == 0x5405
    ensures Encode(XOR(0x1, 0x2, 0x3)) == 0x6123
    ensures Encode(RSH(0xA, 0xB)) == 0x7A0B
    ensures Encode(LDI(0x9, 0xFF)) == 0x89FF
    ensures Encode(ADI(0x8, 0x42)) == 0x9842
    ensures Encode(JMP(0x3FF)) == 0xA3FF
    ensures Encode(BRH(Zero, 0x222)) == 0xB222
    ensures Encode(BRH(NotZero, 0x123)) == 0xB523
    ensures Encode(BRH(Carry, 0x009)) == 0xB809
    ensures Encode(BRH(NotCarry, 0x3FF)) == 0xBFFF
    ensures Encode(CAL(0x137)) == 0xC137
    ensures Encode(RET) == 0xD000
    ensures Encode(LOD(0x1, 0x2, 0x3)) == 0xE123
    ensures Encode(STR(0xF, 0xF, 0xF)) == 0xFFFF
  {
  }

  /** The words of the from_machine_code test (batpu2/src/isa/mod.rs:71-92). */
  lemma DecodeExamples()
    ensures Decode(0x0000) == NOP
    ensures Decode(0x1000) == HLT
    ensures Decode(0x2345) == ADD(0x3, 0x4, 0x5)
    ensures Decode(0x3939) == SUB(0x9, 0x3, 0x9)
    ensures Decode(0x4EEF) == NOR(0xE, 0xE, 0xF)
    ensures Decode(0x5405) == AND(0x4, 0x0, 0x5)
    ensures Decode(0x6123) == XOR(0x1, 0x2, 0x3)
    ensures Decode(0x7A0B) == RSH(0xA, 0xB)
    ensures Decode(0x89FF) == LDI(0x9, 0xFF)
    ensures Decode(0x9842) == ADI(0x8, 0x42)
    ensures Decode(0xA3FF) == JMP(0x3FF)
    ensures Decode(0xB222) == BRH(Zero, 0x222)
    ensures Decode(0xB523) == BRH(NotZero, 0x123)
    ensures Decode(0xB809) == BRH(Carry, 0x009)
    ensures Decode(0xBFFF) == BRH(NotCarry, 0x3FF)
    ensures Decode(0xC137) == CAL(0x137)
    ensures Decode(0xD000) == RET
    ensures Decode(0xE123) == LOD(0x1, 0x2, 0x3)
    ensures Decode(0xFFFF) == STR(0xF, 0xF, 0xF)
  {
    EncodeExamples();
    DecodeEncode(ADD(0x3, 0x4, 0x5));
    DecodeEncode(SUB(0x9, 0x3, 0x9));
    DecodeEncode(NOR(0xE, 0xE, 0xF));
    DecodeEncode(AND(0x4, 0x0, 0x5));
    DecodeEncode(XOR(0x1, 0x2, 0x3));
    DecodeEncode(RSH(0xA, 0xB));
    DecodeEncode(LDI(0x9, 0xFF));
    DecodeEncode(ADI(0x8, 0x42));
    DecodeEncode(JMP(0x3FF));
    DecodeEncode(BRH(Zero, 0x222));
    DecodeEncode(BRH(NotZero, 0x123));
    DecodeEncode(BRH(Carry, 0x009));
    DecodeEncode(BRH(NotCarry, 0x3FF));
    DecodeEncode(CAL(0x137));
    DecodeEncode(LOD(0x1, 0x2, 0x3));
    DecodeEncode(STR(0xF, 0xF, 0xF));
    DecodeEncode(NOP);
    DecodeEncode(HLT);
    DecodeEncode(RET);
  }
}
