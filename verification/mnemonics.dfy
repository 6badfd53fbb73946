/** Mnemonics and the construction of instructions from a mnemonic and a
    flat list of resolved operand values (`Mnemonic`, `Instruction::new` and
    `TryFrom<&ResolvedInstruction>` in batpu2/src/isa). Alias mnemonics
    rewrite their operands onto a canonical target and never reach the
    instruction type. */
module Mnemonics {
  import opened Results
  import Isa
  import opened Bits

  /** The 16 canonical mnemonics followed by the 7 aliases. */
  datatype Mnemonic =
    | NOP | HLT | ADD | SUB | NOR | AND | XOR | RSH
    | LDI | ADI | JMP | BRH | CAL | RET | LOD | STR
    | CMP | MOV | LSH | INC | DEC | NOT | NEG

  /** The operand kinds of `operand_type!`. */
  datatype Operand = A | B | C | Imm | Addr | Cond | Offset

  /** Why an instruction could not be built. */
  datatype Error =
    | UnknownMnemonic(name: string)
    | OperandCount(expected: nat, actual: nat)
    | OperandRange(operand: Operand, value: int)

  /** An assembler instruction whose operands are already numbers: the
      mnemonic as written and the operand values in order. */
  datatype ResolvedInstruction = ResolvedInstruction(mnemonic: string, operands: seq<int>)

  predicate IsAlias(m: Mnemonic) {
    m.CMP? || m.MOV? || m.LSH? || m.INC? || m.DEC? || m.NOT? || m.NEG?
  }

  /** The canonical mnemonic an alias expands to. */
  function Target(m: Mnemonic): (t: Mnemonic)
    requires IsAlias(m)
    ensures !IsAlias(t)
  {
    match m
    case CMP => SUB
    case MOV => ADD
    case LSH => ADD
    case INC => ADI
    case DEC => ADI
    case NOT => NOR
    case NEG => SUB
  }

  /** The numeric value of a mnemonic (`Mnemonic as u8`): a canonical
      mnemonic's opcode; an alias carries its target's value. */
  function Code(m: Mnemonic): (r: bv8)
    ensures r < 16
    decreases if IsAlias(m) then 1 else 0
  {
    match m
    case NOP => 0x0
    case HLT => 0x1
    case ADD => 0x2
    case SUB => 0x3
    case NOR => 0x4
    case AND => 0x5
    case XOR => 0x6
    case RSH => 0x7
    case LDI => 0x8
    case ADI => 0x9
    case JMP => 0xA
    case BRH => 0xB
    case CAL => 0xC
    case RET => 0xD
    case LOD => 0xE
    case STR => 0xF
    case _ => Code(Target(m))
  }

  /** An alias's code is found through its target. */
  lemma AliasCode(m: Mnemonic)
    requires IsAlias(m)
    ensures Code(m) == Code(Target(m))
  {
  }

  /** The operands each mnemonic is declared with, in order
      (batpu2/src/isa/mod.rs:6-33). */
  function Signature(m: Mnemonic): seq<Operand> {
    match m
    case NOP => []
    case HLT => []
    case ADD => [A, B, C]
    case SUB => [A, B, C]
    case NOR => [A, B, C]
    case AND => [A, B, C]
    case XOR => [A, B, C]
    case RSH => [A, C]
    case LDI => [A, Imm]
    case ADI => [A, Imm]
    case JMP => [Addr]
    case BRH => [Cond, Addr]
    case CAL => [Addr]
    case RET => []
    case LOD => [A, B, Offset]
    case STR => [A, B, Offset]
    case CMP => [A, B]
    case MOV => [A, C]
    case LSH => [A, C]
    case INC => [A]
    case DEC => [A]
    case NOT => [A, C]
    case NEG => [A, C]
  }

  /** The number of values an operand's bit field holds. */
  function Limit(o: Operand): nat {
    match o
    case A => 16
    case B => 16
    case C => 16
    case Offset => 16
    case Imm => 256
    case Addr => 1024
    case Cond => 4
  }

  predicate Fits(o: Operand, v: int) {
    0 <= v < Limit(o)
  }

  /** Every operand value fits the operand it is given for. */
  predicate AllFit(sig: seq<Operand>, ops: seq<int>)
    requires |ops| == |sig|
  {
    forall k :: 0 <= k < |sig| ==> Fits(sig[k], ops[k])
  }

  /** Position `j` holds the first operand whose value does not fit. */
  predicate FirstMisfitAt(sig: seq<Operand>, ops: seq<int>, j: int)
    requires |ops| == |sig|
  {
    && 0 <= j < |sig|
    && !Fits(sig[j], ops[j])
    && forall i :: 0 <= i < j ==> Fits(sig[i], ops[i])
  }

  /** The first operand, from position `k` on, whose value does not fit. */
  function FirstMisfit(sig: seq<Operand>, ops: seq<int>, k: nat): (r: Option<Error>)
    requires |ops| == |sig| && k <= |sig|
    requires forall j :: 0 <= j < k ==> Fits(sig[j], ops[j])
    ensures r.None? <==> AllFit(sig, ops)
    ensures r.Some? ==> exists j :: FirstMisfitAt(sig, ops, j) && r.value == OperandRange(sig[j], ops[j])
    decreases |sig| - k
  {
    if k == |sig| then None
    else if !Fits(sig[k], ops[k]) then Some(OperandRange(sig[k], ops[k]))
    else FirstMisfit(sig, ops, k + 1)
  }

  /** The operand checks of `Instruction::new`: the count first, then each
      value against its field, in declaration order. */
  function CheckOperands(sig: seq<Operand>, ops: seq<int>): (r: Option<Error>)
    ensures r.None? <==> |ops| == |sig| && AllFit(sig, ops)
    ensures |ops| != |sig| ==> r == Some(OperandCount(|sig|, |ops|))
    ensures |ops| == |sig| && r.Some? ==>
      exists j :: FirstMisfitAt(sig, ops, j) && r.value == OperandRange(sig[j], ops[j])
  {
    if |ops| != |sig| then Some(OperandCount(|sig|, |ops|))
    else FirstMisfit(sig, ops, 0)
  }

  /** The operands of an alias written onto its target
      (batpu2/src/isa/mod.rs:26-32). */
  function Rewrite(m: Mnemonic, ops: seq<int>): (r: seq<int>)
    requires IsAlias(m) && |ops| == |Signature(m)|
    ensures |r| == |Signature(Target(m))|
  {
    match m
    case CMP => [ops[0], ops[1], 0]
    case MOV => [ops[0], 0, ops[1]]
    case LSH => [ops[0], ops[0], ops[1]]
    case INC => [ops[0], 1]
    case DEC => [ops[0], 0xFF]
    case NOT => [ops[0], 0, ops[1]]
    case NEG => [0, ops[0], ops[1]]
  }

  /** Operands that fit an alias still fit its target after rewriting. */
  lemma RewriteFits(m: Mnemonic, ops: seq<int>)
    requires IsAlias(m) && |ops| == |Signature(m)| && AllFit(Signature(m), ops)
    ensures AllFit(Signature(Target(m)), Rewrite(m, ops))
  {
    var sig := Signature(m);
    assert Fits(sig[0], ops[0]);
    if |sig| > 1 {
      assert Fits(sig[1], ops[1]);
    }
  }

  /** The instruction of a canonical mnemonic with checked operands, the
      values assigned to the fields in declaration order. */
  function Construct(m: Mnemonic, ops: seq<int>): (i: Isa.Instruction)
    requires !IsAlias(m) && |ops| == |Signature(m)| && AllFit(Signature(m), ops)
  {
    var sig := Signature(m);
    assert forall k :: 0 <= k < |ops| ==> 0 <= ops[k] < Limit(sig[k]);
    match m
    case NOP => Isa.NOP
    case HLT => Isa.HLT
    case ADD => Isa.ADD(ToByte(ops[0]), ToByte(ops[1]), ToByte(ops[2]))
    case SUB => Isa.SUB(ToByte(ops[0]), ToByte(ops[1]), ToByte(ops[2]))
    case NOR => Isa.NOR(ToByte(ops[0]), ToByte(ops[1]), ToByte(ops[2]))
    case AND => Isa.AND(ToByte(ops[0]), ToByte(ops[1]), ToByte(ops[2]))
    case XOR => Isa.XOR(ToByte(ops[0]), ToByte(ops[1]), ToByte(ops[2]))
    case RSH => Isa.RSH(ToByte(ops[0]), ToByte(ops[1]))
    case LDI => Isa.LDI(ToByte(ops[0]), ToByte(ops[1]))
    case ADI => Isa.ADI(ToByte(ops[0]), ToByte(ops[1]))
    case JMP => Isa.JMP(ToWord(ops[0]))
    case BRH => Isa.BRH(Isa.CondOf(ToWord(ops[0])), ToWord(ops[1]))
    case CAL => Isa.CAL(ToWord(ops[0]))
    case RET => Isa.RET
    case LOD => Isa.LOD(ToByte(ops[0]), ToByte(ops[1]), ToByte(ops[2]))
    case STR => Isa.STR(ToByte(ops[0]), ToByte(ops[1]), ToByte(ops[2]))
  }

  /** The canonical mnemonic of an instruction variant. */
  function MnemonicOf(i: Isa.Instruction): (m: Mnemonic)
    ensures !IsAlias(m)
  {
    match i
    case NOP => NOP
    case HLT => HLT
    case ADD(_, _, _) => ADD
    case SUB(_, _, _) => SUB
    case NOR(_, _, _) => NOR
    case AND(_, _, _) => AND
    case XOR(_, _, _) => XOR
    case RSH(_, _) => RSH
    case LDI(_, _) => LDI
    case ADI(_, _) => ADI
    case JMP(_) => JMP
    case BRH(_, _) => BRH
    case CAL(_) => CAL
    case RET => RET
    case LOD(_, _, _) => LOD
    case STR(_, _, _) => STR
  }

  /** The operand values an instruction carries, in declaration order. */
  function OperandsOf(i: Isa.Instruction): seq<int> {
    match i
    case NOP => []
    case HLT => []
    case ADD(a, b, c) => [a as int, b as int, c as int]
    case SUB(a, b, c) => [a as int, b as int, c as int]
    case NOR(a, b, c) => [a as int, b as int, c as int]
    case AND(a, b, c) => [a as int, b as int, c as int]
    case XOR(a, b, c) => [a as int, b as int, c as int]
    case RSH(a, c) => [a as int, c as int]
    case LDI(a, imm) => [a as int, imm as int]
    case ADI(a, imm) => [a as int, imm as int]
    case JMP(addr) => [addr as int]
    case BRH(cond, addr) => [Isa.CondCode(cond) as int, addr as int]
    case CAL(addr) => [addr as int]
    case RET => []
    case LOD(a, b, offset) => [a as int, b as int, offset as int]
    case STR(a, b, offset) => [a as int, b as int, offset as int]
  }

  /** The instruction a mnemonic denotes once its operands are checked: a
      canonical mnemonic builds its own variant, an alias builds its target
      from the rewritten operands. */
  function Expand(m: Mnemonic, ops: seq<int>): (i: Isa.Instruction)
    requires |ops| == |Signature(m)| && AllFit(Signature(m), ops)
    ensures Isa.WellFormed(i) && Isa.Opcode(i) == Code(m)
    ensures !IsAlias(m) ==> MnemonicOf(i) == m && OperandsOf(i) == ops
  {
    if IsAlias(m) then
      var t, ops' := Target(m), Rewrite(m, ops);
      RewriteFits(m, ops);
      ConstructSound(t, ops');
      AliasCode(m);
      Construct(t, ops')
    else
      ConstructSound(m, ops);
      Construct(m, ops)
  }

  /** `Instruction::new`: check the operand count and each value against
      the mnemonic's declaration, then build the instruction. */
  function Build(m: Mnemonic, ops: seq<int>): (r: Result<Isa.Instruction, Error>)
    ensures r.Ok? <==> |ops| == |Signature(m)| && AllFit(Signature(m), ops)
    ensures r.Err? ==> Some(r.error) == CheckOperands(Signature(m), ops)
    ensures r.Ok? ==> Isa.WellFormed(r.value) && Isa.Opcode(r.value) == Code(m)
    ensures r.Ok? && !IsAlias(m) ==> MnemonicOf(r.value) == m && OperandsOf(r.value) == ops
  {
    match CheckOperands(Signature(m), ops)
    case Some(e) => Err(e)
    case None => Ok(Expand(m, ops))
  }

  /** A constructed instruction is well formed, has the mnemonic's opcode,
      and carries exactly the given operands. */
  lemma ConstructSound(m: Mnemonic, ops: seq<int>)
    requires !IsAlias(m) && |ops| == |Signature(m)| && AllFit(Signature(m), ops)
    ensures Sound(m, ops, Construct(m, ops))
  {
    var sig := Signature(m);
    assert forall k :: 0 <= k < |ops| ==> Fits(sig[k], ops[k]);
    if |sig| == 3 {
      ThreeOperandSound(m, ops);
    } else if |sig| == 2 {
      TwoOperandSound(m, ops);
    } else if |sig| == 1 {
      OneOperandSound(m, ops);
    }
  }

  predicate Sound(m: Mnemonic, ops: seq<int>, i: Isa.Instruction) {
    Isa.WellFormed(i) && Isa.Opcode(i) == Code(m) && MnemonicOf(i) == m && OperandsOf(i) == ops
  }

  lemma ThreeOperandSound(m: Mnemonic, ops: seq<int>)
    requires !IsAlias(m) && |ops| == |Signature(m)| == 3 && AllFit(Signature(m), ops)
    ensures Sound(m, ops, Construct(m, ops))
  {
    var sig := Signature(m);
    assert Fits(sig[0], ops[0]) && Fits(sig[1], ops[1]) && Fits(sig[2], ops[2]);
  }

  lemma TwoOperandSound(m: Mnemonic, ops: seq<int>)
    requires !IsAlias(m) && |ops| == |Signature(m)| == 2 && AllFit(Signature(m), ops)
    ensures Sound(m, ops, Construct(m, ops))
  {
    var sig := Signature(m);
    assert Fits(sig[0], ops[0]) && Fits(sig[1], ops[1]);
    if m.BRH? {
      BranchSound(ops);
    } else {
      RegisterPairSound(m, ops);
    }
  }

  lemma RegisterPairSound(m: Mnemonic, ops: seq<int>)
    requires m.RSH? || m.LDI? || m.ADI?
    requires |ops| == 2 && 0 <= ops[0] < 16 && 0 <= ops[1] < 256
    requires m.RSH? ==> ops[1] < 16
    ensures Sound(m, ops, Construct(m, ops))
  {
  }

  lemma BranchSound(ops: seq<int>)
    requires |ops| == 2 && 0 <= ops[0] < 4 && 0 <= ops[1] < 1024
    ensures Sound(BRH, ops, Construct(BRH, ops))
  {
  }

  lemma OneOperandSound(m: Mnemonic, ops: seq<int>)
    requires !IsAlias(m) && |ops| == |Signature(m)| == 1 && AllFit(Signature(m), ops)
    ensures Sound(m, ops, Construct(m, ops))
  {
    assert Fits(Signature(m)[0], ops[0]);
  }

  /** The three letters a mnemonic is written with. */
  function Letters(m: Mnemonic): (char, char, char) {
    match m
    case NOP => ('N', 'O', 'P')
    case HLT => ('H', 'L', 'T')
    case ADD => ('A', 'D', 'D')
    case SUB => ('S', 'U', 'B')
    case NOR => ('N', 'O', 'R')
    case AND => ('A', 'N', 'D')
    case XOR => ('X', 'O', 'R')
    case RSH => ('R', 'S', 'H')
    case LDI => ('L', 'D', 'I')
    case ADI => ('A', 'D', 'I')
    case JMP => ('J', 'M', 'P')
    case BRH => ('B', 'R', 'H')
    case CAL => ('C', 'A', 'L')
    case RET => ('R', 'E', 'T')
    case LOD => ('L', 'O', 'D')
    case STR => ('S', 'T', 'R')
    case CMP => ('C', 'M', 'P')
    case MOV => ('M', 'O', 'V')
    case LSH => ('L', 'S', 'H')
    case INC => ('I', 'N', 'C')
    case DEC => ('D', 'E', 'C')
    case NOT => ('N', 'O', 'T')
    case NEG => ('N', 'E', 'G')
  }

  /** The name a mnemonic is written with. */
  function Name(m: Mnemonic): (s: string)
    ensures |s| == 3
  {
    var l := Letters(m);
    [l.0, l.1, l.2]
  }

  /** The mnemonic spelled by three letters, if any. */
  function FromLetters(l: (char, char, char)): (r: Option<Mnemonic>)
    ensures r.Some? ==> Letters(r.value) == l
  {
    if l == ('N', 'O', 'P') then Some(NOP)
    else if l == ('H', 'L', 'T') then Some(HLT)
    else if l == ('A', 'D', 'D') then Some(ADD)
    else if l == ('S', 'U', 'B') then Some(SUB)
    else if l == ('N', 'O', 'R') then Some(NOR)
    else if l == ('A', 'N', 'D') then Some(AND)
    else if l == ('X', 'O', 'R') then Some(XOR)
    else if l == ('R', 'S', 'H') then Some(RSH)
    else if l == ('L', 'D', 'I') then Some(LDI)
    else if l == ('A', 'D', 'I') then Some(ADI)
    else if l == ('J', 'M', 'P') then Some(JMP)
    else if l == ('B', 'R', 'H') then Some(BRH)
    else if l == ('C', 'A', 'L') then Some(CAL)
    else if l == ('R', 'E', 'T') then Some(RET)
    else if l == ('L', 'O', 'D') then Some(LOD)
    else if l == ('S', 'T', 'R') then Some(STR)
    else if l == ('C', 'M', 'P') then Some(CMP)
    else if l == ('M', 'O', 'V') then Some(MOV)
    else if l == ('L', 'S', 'H') then Some(LSH)
    else if l == ('I', 'N', 'C') then Some(INC)
    else if l == ('D', 'E', 'C') then Some(DEC)
    else if l == ('N', 'O', 'T') then Some(NOT)
    else if l == ('N', 'E', 'G') then Some(NEG)
    else None
  }

  /** `Mnemonic::try_from(&str)`: the mnemonic named `s`, or an error naming
      the unknown token. */
  function Parse(s: string): (r: Result<Mnemonic, Error>)
    ensures r.Ok? ==> Name(r.value) == s
    ensures r.Err? ==> r.error == UnknownMnemonic(s)
  {
    if |s| != 3 then Err(UnknownMnemonic(s))
    else
      match FromLetters((s[0], s[1], s[2]))
      case Some(m) => assert Name(m) == s; Ok(m)
      case None => Err(UnknownMnemonic(s))
  }

  /** Every mnemonic is recognised by its own name. */
  lemma ParseName(m: Mnemonic)
    ensures Parse(Name(m)) == Ok(m)
  {
    var s := Name(m);
    assert (s[0], s[1], s[2]) == Letters(m);
    LettersRead(m);
  }

  /** Every mnemonic's letters are recognised as that mnemonic. */
  lemma LettersRead(m: Mnemonic)
    ensures FromLetters(Letters(m)) == Some(m)
  {
  }

  /** Different mnemonics have different names, so a name that parses
      names exactly one mnemonic. */
  lemma NamesDistinct(m1: Mnemonic, m2: Mnemonic)
    ensures Name(m1) == Name(m2) <==> m1 == m2
  {
    if Name(m1) == Name(m2) {
      ParseName(m1);
      ParseName(m2);
    }
  }

  /** `TryFrom<&ResolvedInstruction> for Instruction`
      (batpu2/src/isa/mod.rs:36-41): parse the mnemonic, then build. */
  function FromResolved(ri: ResolvedInstruction): Result<Isa.Instruction, Error> {
    match Parse(ri.mnemonic)
    case Err(e) => Err(e)
    case Ok(m) => Build(m, ri.operands)
  }

  /** Resolution in terms of names: text that names no mnemonic is an
      unknown-mnemonic error, and text naming a mnemonic gives what `Build`
      gives for it. */
  lemma FromResolvedSpec(ri: ResolvedInstruction)
    ensures (forall m :: Name(m) != ri.mnemonic) ==> FromResolved(ri) == Err(UnknownMnemonic(ri.mnemonic))
    ensures forall m :: Name(m) == ri.mnemonic ==> FromResolved(ri) == Build(m, ri.operands)
  {
    forall m | Name(m) == ri.mnemonic
      ensures FromResolved(ri) == Build(m, ri.operands)
    {
      ParseName(m);
    }
  }

  /** Canonical mnemonics have pairwise distinct codes
      (batpu2/src/isa/mod.rs:7-22). */
  lemma CanonicalCodes(m1: Mnemonic, m2: Mnemonic)
    requires !IsAlias(m1) && !IsAlias(m2)
    ensures Code(m1) == Code(m2) <==> m1 == m2
  {
  }

  /** The opcode of an instruction is the code of its mnemonic
      (batpu2/src/isa/macros.rs:42). */
  lemma CodeOfMnemonic(i: Isa.Instruction)
    ensures Code(MnemonicOf(i)) == Isa.Opcode(i)
  {
  }

  /** The word holding an instruction's opcode alone decodes to the same
      mnemonic: the top nibble selects the variant. */
  lemma OpcodeSelects(i: Isa.Instruction)
    ensures MnemonicOf(Isa.Decode((Isa.Opcode(i) as bv16) << 12)) == MnemonicOf(i)
  {
    var j := Isa.Decode((Isa.Opcode(i) as bv16) << 12);
    assert ((Isa.Opcode(i) as bv16) << 12) >> 12 == Isa.Opcode(i) as bv16;
    CodeOfMnemonic(i);
    CodeOfMnemonic(j);
    CanonicalCodes(MnemonicOf(i), MnemonicOf(j));
  }

  /** An alias has no opcode or instruction variant of its own: an
      instruction carries the alias's code exactly when it is a variant of
      the alias's target (batpu2/src/isa/macros.rs:43). */
  lemma AliasAddsNoVariant(m: Mnemonic, i: Isa.Instruction)
    requires IsAlias(m)
    ensures Isa.Opcode(i) == Code(m) <==> MnemonicOf(i) == Target(m)
  {
    CodeOfMnemonic(i);
    CanonicalCodes(MnemonicOf(i), Target(m));
  }

  /** Whatever an alias builds is an instruction of its target's variant. */
  lemma AliasBuildsTargetVariant(m: Mnemonic, ops: seq<int>)
    requires IsAlias(m)
    ensures Build(m, ops).Ok? ==> MnemonicOf(Build(m, ops).value) == Target(m)
  {
    if Build(m, ops).Ok? {
      AliasAddsNoVariant(m, Build(m, ops).value);
    }
  }

  /** Every well-formed instruction is built back from its mnemonic and its
      operands, so Build reaches every instruction that fits its word. */
  lemma BuildComplete(i: Isa.Instruction)
    requires Isa.WellFormed(i)
    ensures Build(MnemonicOf(i), OperandsOf(i)) == Ok(i)
  {
    OperandsFit(i);
    ConstructInverse(i);
  }

  /** The operands of a well-formed instruction pass the checks of its
      mnemonic. */
  lemma OperandsFit(i: Isa.Instruction)
    requires Isa.WellFormed(i)
    ensures |OperandsOf(i)| == |Signature(MnemonicOf(i))|
    ensures AllFit(Signature(MnemonicOf(i)), OperandsOf(i))
  {
    if i.ADD? || i.SUB? || i.NOR? || i.AND? || i.XOR? || i.LOD? || i.STR? {
      ThreeFit(i);
    } else if i.RSH? || i.LDI? || i.ADI? {
      PairFit(i);
    } else if i.BRH? || i.JMP? || i.CAL? {
      AddressFit(i);
    }
  }

  lemma ThreeFit(i: Isa.Instruction)
    requires Isa.WellFormed(i)
    requires i.ADD? || i.SUB? || i.NOR? || i.AND? || i.XOR? || i.LOD? || i.STR?
    ensures |OperandsOf(i)| == |Signature(MnemonicOf(i))|
    ensures AllFit(Signature(MnemonicOf(i)), OperandsOf(i))
  {
    var sig, ops := Signature(MnemonicOf(i)), OperandsOf(i);
    var z := if i.LOD? || i.STR? then i.offset else i.c;
    Registers(i.a, i.b, z);
    assert ops == [i.a as int, i.b as int, z as int];
    assert sig[0] == A && sig[1] == B && Limit(sig[2]) == 16;
    AllFitThree(sig, ops);
  }

  lemma PairFit(i: Isa.Instruction)
    requires Isa.WellFormed(i)
    requires i.RSH? || i.LDI? || i.ADI?
    ensures |OperandsOf(i)| == |Signature(MnemonicOf(i))|
    ensures AllFit(Signature(MnemonicOf(i)), OperandsOf(i))
  {
    var sig, ops := Signature(MnemonicOf(i)), OperandsOf(i);
    var y := if i.RSH? then i.c else i.imm;
    Registers(i.a, if i.RSH? then i.c else 0, 0);
    assert ops == [i.a as int, y as int];
    assert sig[0] == A && (i.RSH? ==> sig[1] == C) && (!i.RSH? ==> sig[1] == Imm);
    AllFitTwo(sig, ops);
  }

  lemma AddressFit(i: Isa.Instruction)
    requires Isa.WellFormed(i)
    requires i.BRH? || i.JMP? || i.CAL?
    ensures |OperandsOf(i)| == |Signature(MnemonicOf(i))|
    ensures AllFit(Signature(MnemonicOf(i)), OperandsOf(i))
  {
    var sig, ops := Signature(MnemonicOf(i)), OperandsOf(i);
    if i.BRH? {
      Words(Isa.CondCode(i.cond), i.addr);
      assert ops == [Isa.CondCode(i.cond) as int, i.addr as int];
      assert sig == [Cond, Addr];
      AllFitTwo(sig, ops);
    } else {
      Words(0, i.addr);
      assert ops == [i.addr as int];
      assert sig == [Addr];
      assert Fits(sig[0], ops[0]);
    }
  }

  lemma AllFitThree(sig: seq<Operand>, ops: seq<int>)
    requires |sig| == |ops| == 3
    requires Fits(sig[0], ops[0]) && Fits(sig[1], ops[1]) && Fits(sig[2], ops[2])
    ensures AllFit(sig, ops)
  {
  }

  lemma AllFitTwo(sig: seq<Operand>, ops: seq<int>)
    requires |sig| == |ops| == 2
    requires Fits(sig[0], ops[0]) && Fits(sig[1], ops[1])
    ensures AllFit(sig, ops)
  {
  }

  /** Constructing from an instruction's own mnemonic and operands gives
      the instruction back. */
  lemma ConstructInverse(i: Isa.Instruction)
    requires Isa.WellFormed(i)
    requires AllFit(Signature(MnemonicOf(i)), OperandsOf(i))
    ensures Construct(MnemonicOf(i), OperandsOf(i)) == i
  {
    if i.ADD? || i.SUB? || i.NOR? || i.AND? || i.XOR? || i.LOD? || i.STR? {
      ThreeInverse(i);
    } else if i.RSH? || i.LDI? || i.ADI? {
      PairInverse(i);
    } else if i.BRH? || i.JMP? || i.CAL? {
      AddressInverse(i);
    }
  }

  lemma ThreeInverse(i: Isa.Instruction)
    requires Isa.WellFormed(i)
    requires i.ADD? || i.SUB? || i.NOR? || i.AND? || i.XOR? || i.LOD? || i.STR?
    requires AllFit(Signature(MnemonicOf(i)), OperandsOf(i))
    ensures Construct(MnemonicOf(i), OperandsOf(i)) == i
  {
    var z := if i.LOD? || i.STR? then i.offset else i.c;
    BytesBack(i.a, i.b, z);
    assert OperandsOf(i) == [i.a as int, i.b as int, z as int];
  }

  lemma PairInverse(i: Isa.Instruction)
    requires Isa.WellFormed(i)
    requires i.RSH? || i.LDI? || i.ADI?
    requires AllFit(Signature(MnemonicOf(i)), OperandsOf(i))
    ensures Construct(MnemonicOf(i), OperandsOf(i)) == i
  {
    var y := if i.RSH? then i.c else i.imm;
    BytesBack(i.a, y, 0);
    assert OperandsOf(i) == [i.a as int, y as int];
  }

  lemma AddressInverse(i: Isa.Instruction)
    requires Isa.WellFormed(i)
    requires i.BRH? || i.JMP? || i.CAL?
    requires AllFit(Signature(MnemonicOf(i)), OperandsOf(i))
    ensures Construct(MnemonicOf(i), OperandsOf(i)) == i
  {
    if i.BRH? {
      WordsBack(Isa.CondCode(i.cond), i.addr);
      Isa.CondRoundTrip(i.cond);
    } else {
      WordsBack(0, i.addr);
    }
  }

  /** An alias builds exactly what its target builds from the rewritten
      operands: it succeeds on the same inputs and yields the same
      instruction (batpu2/src/isa/mod.rs:25-33). */
  lemma AliasBuildsTarget(m: Mnemonic, ops: seq<int>)
    requires IsAlias(m) && |ops| == |Signature(m)|
    ensures Build(m, ops).Ok? <==> Build(Target(m), Rewrite(m, ops)).Ok?
    ensures Build(m, ops).Ok? ==> Build(m, ops) == Build(Target(m), Rewrite(m, ops))
  {
    var sig, tsig, rops := Signature(m), Signature(Target(m)), Rewrite(m, ops);
    if AllFit(sig, ops) {
      RewriteFits(m, ops);
    }
    if AllFit(tsig, rops) {
      assert forall k :: 0 <= k < |tsig| ==> Fits(tsig[k], rops[k]);
      assert forall k :: 0 <= k < |sig| ==> Fits(sig[k], ops[k]) by {
        forall k | 0 <= k < |sig|
          ensures Fits(sig[k], ops[k])
        {
          AliasOperandKept(m, ops, k);
          var t :| KeptAt(m, ops, k, t);
          assert Fits(tsig[t], rops[t]);
        }
      }
    }
  }

  predicate KeptAt(m: Mnemonic, ops: seq<int>, k: nat, t: int)
    requires IsAlias(m) && |ops| == |Signature(m)| && k < |ops|
  {
    0 <= t < |Rewrite(m, ops)| && Rewrite(m, ops)[t] == ops[k]
    && Limit(Signature(Target(m))[t]) == Limit(Signature(m)[k])
  }

  /** Every alias operand reappears, at an operand of the same width, among
      its target's operands. */
  lemma AliasOperandKept(m: Mnemonic, ops: seq<int>, k: nat)
    requires IsAlias(m) && |ops| == |Signature(m)| && k < |ops|
    ensures exists t :: KeptAt(m, ops, k, t)
  {
    var r := Rewrite(m, ops);
    match m
    case CMP => assert KeptAt(m, ops, k, k);
    case MOV => assert KeptAt(m, ops, k, 2 * k);
    case LSH => assert KeptAt(m, ops, k, k + 1);
    case INC => assert KeptAt(m, ops, k, 0);
    case DEC => assert KeptAt(m, ops, k, 0);
    case NOT => assert KeptAt(m, ops, k, 2 * k);
    case NEG => assert KeptAt(m, ops, k, k + 1);
  }

  /** Each alias builds the same result as its written expansion, for every
      operand value: errors included, except that NEG reports an out-of-range
      first operand against its own operand A while `SUB(0, a, c)` reports it
      against B, so for NEG only success and the instruction agree. */
  lemma AliasExpansions(x: int, y: int)
    ensures Build(CMP, [x, y]) == Build(SUB, [x, y, 0])
    ensures Build(MOV, [x, y]) == Build(ADD, [x, 0, y])
    ensures Build(LSH, [x, y]) == Build(ADD, [x, x, y])
    ensures Build(INC, [x]) == Build(ADI, [x, 1])
    ensures Build(DEC, [x]) == Build(ADI, [x, 0xFF])
    ensures Build(NOT, [x, y]) == Build(NOR, [x, 0, y])
    ensures Build(NEG, [x, y]).Ok? <==> Build(SUB, [0, x, y]).Ok?
    ensures Build(NEG, [x, y]).Ok? ==> Build(NEG, [x, y]) == Build(SUB, [0, x, y])
  {
    CmpExpansion(x, y);
    MovExpansion(x, y);
    LshExpansion(x, y);
    IncExpansion(x);
    DecExpansion(x);
    NotExpansion(x, y);
    NegExpansion(x, y);
  }

  lemma CmpExpansion(x: int, y: int)
    ensures Build(CMP, [x, y]) == Build(SUB, [x, y, 0])
  {
    AliasBuildsTarget(CMP, [x, y]);
  }

  lemma MovExpansion(x: int, y: int)
    ensures Build(MOV, [x, y]) == Build(ADD, [x, 0, y])
  {
    AliasBuildsTarget(MOV, [x, y]);
  }

  lemma LshExpansion(x: int, y: int)
    ensures Build(LSH, [x, y]) == Build(ADD, [x, x, y])
  {
    AliasBuildsTarget(LSH, [x, y]);
  }

  lemma IncExpansion(x: int)
    ensures Build(INC, [x]) == Build(ADI, [x, 1])
  {
    AliasBuildsTarget(INC, [x]);
  }

  lemma DecExpansion(x: int)
    ensures Build(DEC, [x]) == Build(ADI, [x, 0xFF])
  {
    AliasBuildsTarget(DEC, [x]);
  }

  lemma NotExpansion(x: int, y: int)
    ensures Build(NOT, [x, y]) == Build(NOR, [x, 0, y])
  {
    AliasBuildsTarget(NOT, [x, y]);
  }

  lemma NegExpansion(x: int, y: int)
    ensures Build(NEG, [x, y]).Ok? <==> Build(SUB, [0, x, y]).Ok?
    ensures Build(NEG, [x, y]).Ok? ==> Build(NEG, [x, y]) == Build(SUB, [0, x, y])
  {
    AliasBuildsTarget(NEG, [x, y]);
  }

  /** Printing an instruction's mnemonic and operands and resolving them
      again gives the instruction back. */
  lemma FromResolvedRoundTrip(i: Isa.Instruction)
    requires Isa.WellFormed(i)
    ensures FromResolved(ResolvedInstruction(Name(MnemonicOf(i)), OperandsOf(i))) == Ok(i)
  {
    ParseName(MnemonicOf(i));
    BuildComplete(i);
  }

  /** The resolution vector of batpu2/src/isa/mod.rs:96. */
  lemma ResolveNop()
    ensures FromResolved(ResolvedInstruction("NOP", [])) == Ok(Isa.NOP)
  {
    FromResolvedRoundTrip(Isa.NOP);
  }

  /** The resolution vector of batpu2/src/isa/mod.rs:97. */
  lemma ResolveHlt()
    ensures FromResolved(ResolvedInstruction("HLT", [])) == Ok(Isa.HLT)
  {
    FromResolvedRoundTrip(Isa.HLT);
  }

  /** The resolution vector of batpu2/src/isa/mod.rs:112. */
  lemma ResolveRet()
    ensures FromResolved(ResolvedInstruction("RET", [])) == Ok(Isa.RET)
  {
    FromResolvedRoundTrip(Isa.RET);
  }

  /** The resolution vector of batpu2/src/isa/mod.rs:98. */
  lemma ResolveAdd()
    ensures FromResolved(ResolvedInstruction("ADD", [0x3, 0x4, 0x5])) == Ok(Isa.ADD(0x3, 0x4, 0x5))
  {
    FromResolvedRoundTrip(Isa.ADD(0x3, 0x4, 0x5));
  }

  /** The resolution vector of batpu2/src/isa/mod.rs:99. */
  lemma ResolveSub()
    ensures FromResolved(ResolvedInstruction("SUB", [0x9, 0x3, 0x9])) == Ok(Isa.SUB(0x9, 0x3, 0x9))
  {
    FromResolvedRoundTrip(Isa.SUB(0x9, 0x3, 0x9));
  }

  /** The resolution vector of batpu2/src/isa/mod.rs:100. */
  lemma ResolveNor()
    ensures FromResolved(ResolvedInstruction("NOR", [0xE, 0xE, 0xF])) == Ok(Isa.NOR(0xE, 0xE, 0xF))
  {
    FromResolvedRoundTrip(Isa.NOR(0xE, 0xE, 0xF));
  }

  /** The resolution vector of batpu2/src/isa/mod.rs:101. */
  lemma ResolveAnd()
    ensures FromResolved(ResolvedInstruction("AND", [0x4, 0x0, 0x5])) == Ok(Isa.AND(0x4, 0x0, 0x5))
  {
    FromResolvedRoundTrip(Isa.AND(0x4, 0x0, 0x5));
  }

  /** The resolution vector of batpu2/src/isa/mod.rs:102. */
  lemma ResolveXor()
    ensures FromResolved(ResolvedInstruction("XOR", [0x1, 0x2, 0x3])) == Ok(Isa.XOR(0x1, 0x2, 0x3))
  {
    FromResolvedRoundTrip(Isa.XOR(0x1, 0x2, 0x3));
  }

  /** The resolution vector of batpu2/src/isa/mod.rs:103. */
  lemma ResolveRsh()
    ensures FromResolved(ResolvedInstruction("RSH", [0xA, 0xB])) == Ok(Isa.RSH(0xA, 0xB))
  {
    FromResolvedRoundTrip(Isa.RSH(0xA, 0xB));
  }

  /** The resolution vector of batpu2/src/isa/mod.rs:104. */
  lemma ResolveLdi()
    ensures FromResolved(ResolvedInstruction("LDI", [0x9, 0xFF])) == Ok(Isa.LDI(0x9, 0xFF))
  {
    FromResolvedRoundTrip(Isa.LDI(0x9, 0xFF));
  }

  /** The resolution vector of batpu2/src/isa/mod.rs:105. */
  lemma ResolveAdi()
    ensures FromResolved(ResolvedInstruction("ADI", [0x8, 0x42])) == Ok(Isa.ADI(0x8, 0x42))
  {
    FromResolvedRoundTrip(Isa.ADI(0x8, 0x42));
  }

  /** The resolution vector of batpu2/src/isa/mod.rs:106. */
  lemma ResolveJmp()
    ensures FromResolved(ResolvedInstruction("JMP", [0x3FF])) == Ok(Isa.JMP(0x3FF))
  {
    FromResolvedRoundTrip(Isa.JMP(0x3FF));
  }

  /** The resolution vector of batpu2/src/isa/mod.rs:111. */
  lemma ResolveCal()
    ensures FromResolved(ResolvedInstruction("CAL", [0x137])) == Ok(Isa.CAL(0x137))
  {
    FromResolvedRoundTrip(Isa.CAL(0x137));
  }

  /** The resolution vector of batpu2/src/isa/mod.rs:107. */
  lemma ResolveBrhZero()
    ensures FromResolved(ResolvedInstruction("BRH", [0x0, 0x222])) == Ok(Isa.BRH(Isa.Zero, 0x222))
  {
    BranchExample(Isa.Zero, 0x222);
  }

  /** The resolution vector of batpu2/src/isa/mod.rs:108. */
  lemma ResolveBrhNotZero()
    ensures FromResolved(ResolvedInstruction("BRH", [0x1, 0x123])) == Ok(Isa.BRH(Isa.NotZero, 0x123))
  {
    BranchExample(Isa.NotZero, 0x123);
  }

  /** The resolution vector of batpu2/src/isa/mod.rs:109. */
  lemma ResolveBrhCarry()
    ensures FromResolved(ResolvedInstruction("BRH", [0x2, 0x009])) == Ok(Isa.BRH(Isa.Carry, 0x009))
  {
    BranchExample(Isa.Carry, 0x009);
  }

  /** The resolution vector of batpu2/src/isa/mod.rs:110. */
  lemma ResolveBrhNotCarry()
    ensures FromResolved(ResolvedInstruction("BRH", [0x3, 0x3FF])) == Ok(Isa.BRH(Isa.NotCarry, 0x3FF))
  {
    BranchExample(Isa.NotCarry, 0x3FF);
  }

  lemma BranchExample(cond: Isa.Cond, addr: bv16)
    requires addr < 1024
    ensures FromResolved(ResolvedInstruction("BRH", [Isa.CondCode(cond) as int, addr as int])) == Ok(Isa.BRH(cond, addr))
  {
    assert Name(BRH) == "BRH";
    FromResolvedRoundTrip(Isa.BRH(cond, addr));
  }

  /** The resolution vector of batpu2/src/isa/mod.rs:113. */
  lemma ResolveLod()
    ensures FromResolved(ResolvedInstruction("LOD", [0x1, 0x2, 0x3])) == Ok(Isa.LOD(0x1, 0x2, 0x3))
  {
    FromResolvedRoundTrip(Isa.LOD(0x1, 0x2, 0x3));
  }

  /** The resolution vector of batpu2/src/isa/mod.rs:114. */
  lemma ResolveStr()
    ensures FromResolved(ResolvedInstruction("STR", [0xF, 0xF, 0xF])) == Ok(Isa.STR(0xF, 0xF, 0xF))
  {
    FromResolvedRoundTrip(Isa.STR(0xF, 0xF, 0xF));
  }
}
