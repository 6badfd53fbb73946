# BatPU2 instruction set, glyph table and CLI helpers in Dafny

A Dafny model of three pure parts of BatPU2-rs, an emulator and assembler
for the BatPU2 16-bit redstone CPU.

- **Instruction set** (`isa.dfy`, module `Isa`). The sixteen canonical
  instructions and their operand fields. `Cond` has four branch
  conditions. Each instruction packs into one 16-bit machine word, and
  every word decodes back to an instruction.
- **Mnemonics** (`mnemonics.dfy`, module `Mnemonics`). The 23 mnemonics:
  16 canonical ones plus the aliases CMP, MOV, LSH, INC, DEC, NOT and NEG.
  - Each mnemonic has a numeric code, and an alias takes its target's code.
  - Each has an operand signature.
  - `Instruction::new` becomes `Build`. It checks the operand count,
    then each operand's range, then rewrites an alias onto its target.
  - A `ResolvedInstruction` (mnemonic text plus operand values) converts to
    an instruction through `FromResolved`.
- **Field conversions** (`bits.dfy`, module `Bits`). Converting checked
  operand integers into the `u8` and `u16` instruction fields, and back.
- **Display glyphs** (`glyphs.dfy`, module `Glyphs`). The 30-entry
  character table of the text display, the partial conversion from
  `char`, and the `Display` rendering of an index.
- **CLI helpers** (`run.dfy`, module `Run`). The test that decides whether
  an input file is already machine code (`is_mc`), together with Rust's
  `str::lines`, `str::trim` and `str::len`. Also the `Watch` change
  detector that decides when the terminal front end redraws.
- **Shared types** (`results.dfy`, module `Results`). `Option` and `Result`.

Operand fields keep their Rust types. `a`, `b`, `c`, `imm` and `offset`
are `u8`, modelled as `bv8`. `addr` is `u16`, modelled as `bv16`. The
word has narrower bit fields: 4 bits for registers and offset, 8 for
`imm`, 10 for `addr` and 2 for `cond`. `Isa.WellFormed` says when an
instruction fits its word.

The macro-generated bodies of `as_u16`, `From<u16>` and
`Instruction::new` are not part of this model. The model takes:

- the bit layout from the paired encode/decode tests at
  `batpu2/src/isa/mod.rs:49-92`;
- the operand limits from the widths of the word's bit fields, which
  those tests fix: 16 for registers and offsets, 256 for `imm`, 1024 for
  `addr` and 4 for `cond`. These are narrower than the Rust field types
  of `batpu2/src/isa/macros.rs:2-10`;
- the two ways `Instruction::new` can fail: a wrong operand count, or an
  operand out of range. An unknown mnemonic fails earlier, when the text
  is parsed into a `Mnemonic` (`batpu2/src/isa/mod.rs:40`), and the model
  reports it from `Parse`.

## Model

| member | source | states |
|---|---|---|
| Isa.CondOf | batpu2/src/isa/macros.rs:32-37 | every 2-bit code selects the condition whose code it is |
| Isa.CondRoundTrip | batpu2/src/isa/macros.rs:32-37 | conditions and 2-bit codes correspond one to one, in declaration order |
| Isa.Opcode | batpu2/src/isa/mod.rs:7-22 | every declared opcode fits the top nibble |
| Isa.WellFormed | batpu2/src/isa/macros.rs:2-10 | register and offset fields below 16, addresses below 1024; `Isa.DecodeEncode` and `Isa.EncodeInjective` hold exactly on these instructions, and `Isa.Decode` only produces them |
| Isa.Encode | batpu2/src/isa/mod.rs:49-69 | the top nibble of an encoded word is the instruction's opcode; the placement of the operands is `Isa.EncodeLayout` |
| Isa.Decode | batpu2/src/isa/mod.rs:71-92 | every 16-bit word decodes to a well-formed instruction whose opcode is the word's top nibble |
| Isa.ArithmeticRoundTrip | batpu2/src/isa/mod.rs:52-56 | decoding the word of ADD, SUB, NOR, AND or XOR gives the instruction back |
| Isa.MemoryRoundTrip | batpu2/src/isa/mod.rs:67-68 | decoding the word of LOD or STR gives the instruction back |
| Isa.ShiftRoundTrip | batpu2/src/isa/mod.rs:57 | decoding the word of RSH gives the instruction back |
| Isa.ImmediateFormRoundTrip | batpu2/src/isa/mod.rs:58-59 | decoding the word of LDI or ADI gives the instruction back |
| Isa.AddressFormRoundTrip | batpu2/src/isa/mod.rs:60-65 | decoding the word of JMP, BRH or CAL gives the instruction back |
| Isa.DecodeEncode | batpu2/src/isa/mod.rs:49-92 | decode inverts encode on every well-formed instruction |
| Isa.EncodeDecode | batpu2/src/isa/mod.rs:71-92 | encoding a decoded word gives the word back exactly when the word sets no bit its variant ignores |
| Isa.EncodeInjective | batpu2/src/isa/mod.rs:49-69 | two well-formed instructions share a word exactly when they are equal |
| Isa.EncodeLayout | batpu2/src/isa/mod.rs:49-69 | the field placement of every layout: nibbles for register forms, RSH's zero third nibble, imm in the low byte, addr in the low 10 bits, cond at bits 10-11 |
| Isa.EncodeExamples | batpu2/src/isa/mod.rs:49-69 | the nineteen words of the to_machine_code test |
| Isa.DecodeExamples | batpu2/src/isa/mod.rs:71-92 | the nineteen instructions of the from_machine_code test |
| Mnemonics.Target | batpu2/src/isa/mod.rs:25-33 | every alias rewrites onto a canonical mnemonic |
| Mnemonics.Code | batpu2/src/isa/macros.rs:41-44 | every mnemonic's code fits the opcode nibble |
| Mnemonics.AliasAddsNoVariant | batpu2/src/isa/macros.rs:43 | an instruction carries an alias's code exactly when it is a variant of the alias's target, so aliases add no opcode or variant |
| Mnemonics.AliasBuildsTargetVariant | batpu2/src/isa/macros.rs:43 | whatever an alias builds is an instruction of its target's variant |
| Mnemonics.CanonicalCodes | batpu2/src/isa/macros.rs:42 | two canonical mnemonics share a code exactly when they are the same |
| Mnemonics.CodeOfMnemonic | batpu2/src/isa/macros.rs:42 | an instruction's opcode is its mnemonic's code |
| Mnemonics.OpcodeSelects | batpu2/src/isa/mod.rs:7-22 | a word holding only an instruction's opcode decodes to the same mnemonic, so the top nibble alone selects the variant |
| Mnemonics.NamesDistinct | batpu2/src/isa/macros.rs:41-44 | two mnemonics are written alike exactly when they are the same |
| Mnemonics.FromLetters | batpu2/src/isa/mod.rs:40 | a recognised spelling is the spelling of the mnemonic it returns |
| Mnemonics.Parse | batpu2/src/isa/mod.rs:40 | a mnemonic is recognised only from its own name; anything else is an unknown-mnemonic error carrying the text |
| Mnemonics.ParseName | batpu2/src/isa/mod.rs:40 | every mnemonic's name parses back to it |
| Mnemonics.FirstMisfit | batpu2/src/isa/macros.rs:2-10 | the scan finds no misfit exactly when every operand fits its field; otherwise it names the first operand out of range and its value |
| Mnemonics.CheckOperands | batpu2/src/isa/mod.rs:40 | checking passes exactly when the count matches and every operand fits; a wrong count is reported with expected and actual counts, otherwise the first operand out of range is reported |
| Mnemonics.Rewrite | batpu2/src/isa/mod.rs:26-32 | the rewritten operands match the target's arity |
| Mnemonics.RewriteFits | batpu2/src/isa/mod.rs:26-32 | operands that fit an alias fit its target after rewriting |
| Mnemonics.Construct | batpu2/src/isa/macros.rs:45-47 | the variant of a canonical mnemonic with the checked operands in its fields; characterised by `Mnemonics.ConstructSound` and `Mnemonics.ConstructInverse` |
| Mnemonics.ConstructSound | batpu2/src/isa/macros.rs:45-47 | the built instruction is well formed, has the mnemonic's opcode and carries the operands in declaration order |
| Mnemonics.ConstructInverse | batpu2/src/isa/macros.rs:45-47 | building from an instruction's own mnemonic and operands gives it back |
| Mnemonics.OperandsFit | batpu2/src/isa/macros.rs:2-10 | a well-formed instruction's operands pass its mnemonic's checks |
| Mnemonics.Expand | batpu2/src/isa/mod.rs:25-33 | expansion gives a well-formed instruction with the mnemonic's code; a canonical mnemonic keeps its variant and operands |
| Mnemonics.Build | batpu2/src/isa/mod.rs:36-41 | building succeeds exactly when the count matches and every operand fits; an error is the first failed check; a success is well formed with the mnemonic's code, and for a canonical mnemonic carries exactly the given operands |
| Mnemonics.BuildComplete | batpu2/src/isa/mod.rs:36-41 | every well-formed instruction is built from its own mnemonic and operands |
| Mnemonics.AliasBuildsTarget | batpu2/src/isa/mod.rs:25-33 | an alias succeeds exactly when its target succeeds on the rewritten operands, and then builds the same instruction |
| Mnemonics.AliasExpansions | batpu2/src/isa/mod.rs:26-32 | CMP, MOV, LSH, INC, DEC and NOT build the same result as their written expansions for all operand values, errors included; NEG succeeds exactly when its expansion does and then builds the same instruction |
| Mnemonics.CmpExpansion | batpu2/src/isa/mod.rs:26 | CMP(a, b) builds what SUB(a, b, 0) builds, errors included |
| Mnemonics.MovExpansion | batpu2/src/isa/mod.rs:27 | MOV(a, c) builds what ADD(a, 0, c) builds, errors included |
| Mnemonics.LshExpansion | batpu2/src/isa/mod.rs:28 | LSH(a, c) builds what ADD(a, a, c) builds, errors included |
| Mnemonics.IncExpansion | batpu2/src/isa/mod.rs:29 | INC(a) builds what ADI(a, 1) builds, errors included |
| Mnemonics.DecExpansion | batpu2/src/isa/mod.rs:30 | DEC(a) builds what ADI(a, 0xFF) builds, errors included |
| Mnemonics.NotExpansion | batpu2/src/isa/mod.rs:31 | NOT(a, c) builds what NOR(a, 0, c) builds, errors included |
| Mnemonics.NegExpansion | batpu2/src/isa/mod.rs:32 | NEG(a, c) succeeds exactly when SUB(0, a, c) does, and then builds the same instruction |
| Mnemonics.FromResolved | batpu2/src/isa/mod.rs:36-41 | parse the mnemonic, then build; characterised by `Mnemonics.FromResolvedSpec` and `Mnemonics.FromResolvedRoundTrip` |
| Mnemonics.FromResolvedSpec | batpu2/src/isa/mod.rs:36-41 | text that names no mnemonic is an unknown-mnemonic error carrying the text; text naming a mnemonic gives what Build gives for that mnemonic and the operands |
| Mnemonics.FromResolvedRoundTrip | batpu2/src/isa/mod.rs:36-41 | resolving an instruction's name and operands gives the instruction back |
| Mnemonics.ResolveNop | batpu2/src/isa/mod.rs:96 | the NOP vector of the from_ast test |
| Mnemonics.ResolveHlt | batpu2/src/isa/mod.rs:97 | the HLT vector of the from_ast test |
| Mnemonics.ResolveAdd | batpu2/src/isa/mod.rs:98 | the ADD vector of the from_ast test |
| Mnemonics.ResolveSub | batpu2/src/isa/mod.rs:99 | the SUB vector of the from_ast test |
| Mnemonics.ResolveNor | batpu2/src/isa/mod.rs:100 | the NOR vector of the from_ast test |
| Mnemonics.ResolveAnd | batpu2/src/isa/mod.rs:101 | the AND vector of the from_ast test |
| Mnemonics.ResolveXor | batpu2/src/isa/mod.rs:102 | the XOR vector of the from_ast test |
| Mnemonics.ResolveRsh | batpu2/src/isa/mod.rs:103 | the RSH vector of the from_ast test |
| Mnemonics.ResolveLdi | batpu2/src/isa/mod.rs:104 | the LDI vector of the from_ast test |
| Mnemonics.ResolveAdi | batpu2/src/isa/mod.rs:105 | the ADI vector of the from_ast test |
| Mnemonics.ResolveJmp | batpu2/src/isa/mod.rs:106 | the JMP vector of the from_ast test |
| Mnemonics.ResolveBrhZero | batpu2/src/isa/mod.rs:107 | the BRH vector with condition 0 of the from_ast test |
| Mnemonics.ResolveBrhNotZero | batpu2/src/isa/mod.rs:108 | the BRH vector with condition 1 of the from_ast test |
| Mnemonics.ResolveBrhCarry | batpu2/src/isa/mod.rs:109 | the BRH vector with condition 2 of the from_ast test |
| Mnemonics.ResolveBrhNotCarry | batpu2/src/isa/mod.rs:110 | the BRH vector with condition 3 of the from_ast test |
| Mnemonics.ResolveCal | batpu2/src/isa/mod.rs:111 | the CAL vector of the from_ast test |
| Mnemonics.ResolveRet | batpu2/src/isa/mod.rs:112 | the RET vector of the from_ast test |
| Mnemonics.ResolveLod | batpu2/src/isa/mod.rs:113 | the LOD vector of the from_ast test |
| Mnemonics.ResolveStr | batpu2/src/isa/mod.rs:114 | the STR vector of the from_ast test |
| Bits.ToByte | batpu2/src/isa/macros.rs:3-9 | a checked operand stored in a `u8` field keeps its value, and a register index stays below 16 |
| Bits.ToWord | batpu2/src/isa/macros.rs:7 | a checked address stored in a `u16` field keeps its value and stays below 1024 |
| Bits.BytesBack | batpu2/src/isa/macros.rs:3-9 | a `u8` field read back as an operand converts to the same field |
| Bits.WordsBack | batpu2/src/isa/macros.rs:7 | a `u16` field read back as an operand converts to the same field |
| Glyphs.IsValid | batpu2/src/char.rs:23-25 | `is_valid`; `Glyphs.ValidIffGlyph` states it holds exactly when the index has a glyph, below 30 |
| Glyphs.ToChar | batpu2/src/char.rs:14-17 | an index has a glyph exactly when it is below 30, and the glyph is the table entry |
| Glyphs.ValidIffGlyph | batpu2/src/char.rs:23-25 | an index is valid exactly when it has a glyph, that is when it is below 30 |
| Glyphs.ToAsciiUpper | batpu2/src/char.rs:37 | a lower-case ASCII letter maps to its upper-case letter, and every other character is left alone |
| Glyphs.FromChar | batpu2/src/char.rs:31-41 | a character converts exactly when it is a space, `.`, `!`, `?` or an ASCII letter; the index's glyph is the upper-cased character; anything else is an error carrying the character |
| Glyphs.LetterAt | batpu2/src/char.rs:7 | the letters sit at indices 1 to 26 in alphabetical order |
| Glyphs.GlyphRoundTrip | batpu2/src/char.rs:7-41 | every table glyph converts back to its own index |
| Glyphs.CaseInsensitive | batpu2/src/char.rs:36-37 | a character and its upper case convert alike |
| Glyphs.TableDistinct | batpu2/src/char.rs:7 | the thirty table entries are pairwise distinct |
| Glyphs.Decimal | batpu2/src/char.rs:49 | the numeral is non-empty, all digits and without a leading zero |
| Glyphs.DecimalRoundTrip | batpu2/src/char.rs:49 | reading the numeral of n gives n back |
| Glyphs.Display | batpu2/src/char.rs:44-51 | a valid index shows as its glyph; any other as a numeral without leading zeros in angle brackets that reads back to the index |
| Glyphs.DisplayInjective | batpu2/src/char.rs:44-51 | two indices display alike exactly when they are equal |
| Run.Trim | batpu2-cli/src/run.rs:21 | `str::trim`; characterised by `Run.TrimSpec` and `Run.TrimUnique` |
| Run.TrimStartSpec | batpu2-cli/src/run.rs:21 | trimming the start drops a whitespace prefix and stops at the first other character |
| Run.TrimEndSpec | batpu2-cli/src/run.rs:21 | trimming the end drops a whitespace suffix and stops at the last other character |
| Run.TrimSpec | batpu2-cli/src/run.rs:21 | the trimmed line is a slice of the line with only whitespace around it and non-whitespace at both ends |
| Run.TrimUnique | batpu2-cli/src/run.rs:21 | any slice with only whitespace around it and non-whitespace ends is the trimmed line |
| Run.TrimDropsReturn | batpu2-cli/src/run.rs:21 | a carriage return at the end of a line makes no difference after trimming |
| Run.Lines | batpu2-cli/src/run.rs:20 | the input has no lines exactly when it is empty; the split itself is `Run.LinesNoNewline`, `Run.LinesSingle` and `Run.LinesCons` |
| Run.LinesNoNewline | batpu2-cli/src/run.rs:20 | no line holds a line feed |
| Run.LinesSingle | batpu2-cli/src/run.rs:20 | a non-empty text without a line feed is one line, kept whole, a trailing carriage return included |
| Run.LinesCons | batpu2-cli/src/run.rs:20 | a line ended by a line feed becomes the first line, losing one carriage return before the feed, and the lines of the rest follow; a final line feed opens no empty last line |
| Run.LinesFromInput | batpu2-cli/src/run.rs:20 | every character of every line comes from the input |
| Run.AsciiLength | batpu2-cli/src/run.rs:22 | the byte length of ASCII text is its character count |
| Run.LineAccepted | batpu2-cli/src/run.rs:21-22 | the line test of `is_mc`; `Run.LineAcceptedChars` states it in characters |
| Run.IsMachineCode | batpu2-cli/src/run.rs:20-23 | `is_mc`; `Run.SingleLine`, `Run.LeadingLine` and `Run.BlankIsMachineCode` decide it line by line |
| Run.LineAcceptedChars | batpu2-cli/src/run.rs:21-22 | a line passes exactly when, trimmed, it is empty or sixteen `0`/`1` characters |
| Run.StripReturnAccepted | batpu2-cli/src/run.rs:20-22 | the carriage return `str::lines` drops before a line feed never changes whether the line passes |
| Run.SniffMachineCode | batpu2-cli/src/run.rs:20-23 | the loop that stops at the first failing line answers exactly whether every line passes |
| Run.BlankIsMachineCode | batpu2-cli/src/run.rs:20-23 | empty or all-whitespace input counts as machine code |
| Run.SingleLine | batpu2-cli/src/run.rs:20-23 | a one-line input is machine code exactly when that line passes |
| Run.LeadingLine | batpu2-cli/src/run.rs:20-23 | an input is machine code exactly when its first line passes and the rest is machine code, so one offending line sends the whole input to the assembler |
| Run.NewWatch | batpu2-cli/src/run.rs:74-80 | a new watch holds no value and keeps its function |
| Run.Changed | batpu2-cli/src/run.rs:82-90 | the new value is always stored; it is reported exactly when it differs from the stored one |
| Run.Reset | batpu2-cli/src/run.rs:92-94 | a reset forgets the value and keeps the function |
| Run.FirstChangeReported | batpu2-cli/src/run.rs:74-90 | the first observation of a new watch is reported |
| Run.RepeatQuiet | batpu2-cli/src/run.rs:82-90 | observing the same value twice in a row reports nothing the second time |
| Run.ResetReports | batpu2-cli/src/run.rs:82-94 | after a reset the next observation is reported |
| Run.ObserveReportsChanges | batpu2-cli/src/run.rs:82-90 | over a run, the watch ends holding the last value, and each step is reported exactly when its value differs from the previous step's |

## Left out

- Everything else in the repository: the virtual machine, the assembler
  pipeline, the machine-code text codec (`from_mc`), the peripherals and
  the terminal front end in `batpu2-cli/src/run.rs`. They are outside
  this model.
- In `is_mc`, reading the file, choosing between `from_mc` and the
  assembler, and the terminal front end are I/O. Only the classification
  predicate is modelled.
- The `isa!` and `operand_type!` macro machinery is not modelled as
  macros. The catalogue it generates is written out as datatypes.
- `as_u16`, `From<u16>` and `Instruction::new` are modelled from the
  layout and field widths fixed by the encode/decode tests, because the
  macro code that generates their bodies is not part of this model.
- Isa.Encode: masks each field to its bit width, so it is defined on
  every instruction. Its round trip is stated only for well-formed ones.
- Isa.Decode: reads `addr` as the low 10 bits. It ignores the bits a
  variant does not use: the low 12 of NOP, HLT and RET, the third nibble
  of RSH, and bits 10-11 of JMP and CAL. `Isa.EncodeDecode` states this
  exactly.
- Mnemonics.Parse: accepts exactly the upper-case mnemonic names. The
  body of `Mnemonic::try_from(&str)` is not part of this model.
- Mnemonics.Build: the range limits and the check order are assumptions
  about a body that is not part of this model. A register or offset of
  16-255, or an address of 1024-65535, fits the Rust `u8` or `u16` field
  but is rejected here, because it would not fit the word's bit field.
  The operand count is checked before any range. Error values are tags,
  not the source's formatted messages.
- Mnemonics.AliasExpansions: its NEG clause relates successes only, for
  the reason given for `Mnemonics.NegExpansion` on the next line.
- Mnemonics.NegExpansion: weaker than equality, because the errors
  differ. An out-of-range first operand of `NEG(a, c)` is reported
  against NEG's field `A`. The same value in the expansion `SUB(0, a, c)`
  is reported against field `B`. Success and the built instruction agree.
- Operand values are unbounded integers. Narrowing to the source's
  operand integer type before the range check is not modelled.
- Glyphs.FromChar: the error is the character, not the formatted message.
- Run.LineAccepted: `str::trim` is modelled over the Unicode `White_Space`
  characters. `str::len` is modelled as the UTF-8 byte count.
- Run.Changed: returns the reported value by copy, where the source
  returns a reference into the watch.
- The `phantom_data` field of `Watch` carries no state and is left out.
- The `isa!` macro in `batpu2/src/isa/macros.rs` gives each alias the `repr(u8)` discriminant of
  its target. That would duplicate discriminants inside one enum. Codes
  are therefore modelled as the function `Mnemonics.Code`, not as enum
  discriminants.
- The `cond` field is declared with the `Cond` enum type
  (`batpu2/src/isa/macros.rs:8`), but the encode/decode tests write it as
  the integers 0-3 (`batpu2/src/isa/mod.rs:61-64`, `84-87`). The source is
  inconsistent here as well. The model reads the codes 0-3 as `Zero`,
  `NotZero`, `Carry` and `NotCarry`, in declaration order (`Isa.CondOf`).
