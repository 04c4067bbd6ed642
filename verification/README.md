# PhantomDisassembler: a verified model

PhantomDisassembler decodes x86 and x64 machine code in four machine modes and prints it in
Intel syntax. This project models the decoder, the formatter, the one-call wrapper
`Disassemble`, the linear sweep of the fuzz harness with its self-checks, and the key and JSON
printing of the campaign planner. It proves what these promise over every byte string, every
register file, every buffer size and every list of strings. `dafny verify dfyconfig.toml`
checks the whole project.

The model has three layers. The phases of the decoder, operand building, the texts and the sweep
are functions (`Stream`, `Operands`, `Full`, `Text`, `Sweep`), and the theorems are about
them. What the program runs is imperative: a mutable `DecodeContext` that the phases update, an
operand array filled slot by slot, a character buffer written through a position and a count of
what remains, counters incremented in a loop, strings grown and trimmed. Those methods
(`Decoder`, `Builder`, `Formatter`, `Disassemble`, `Harness`, `Keys`, `Json`) are proved
against the functions. What the functions mean is fixed by references that do not run phases:
byte positions and opcode tables for every field, the length and the status; tables of operands
for every opcode; the addressing tables of the Intel SDM; encoders; and readers of the printed text.

| module | contents |
|---|---|
| `Types`, `Stream`, `Operands`, `Full` | entities, decode phases, operand lists, the complete result |
| `Locality`, `Shape`, `Stability` | which bytes decide, stages of an accepting run, the displacement that is read twice |
| `Lookahead`, `Limits` | when the decoder looks past an instruction; inputs that meet the bounds and the exceptions |
| `Address`, `WellFormed`, `Conservation`, `Prefixes` | effective addresses, operand invariants, re-encoding, prefix order |
| `OpcodeMap`, `Notation`, `Raw`, `Record` | references read off the bytes: opcode tables, operand tables, every field and the length, the record |
| `Decoder`, `Builder` | the decoder as the program runs it |
| `Sweep`, `Harness` | unique decodability, tiling, composition; the harness loop |
| `Text`, `Numbers`, `Names`, `Readers`, `Lines`, `Formatter`, `Disassemble` | texts, their inverses, the bounded formatter, decode and format |
| `Keys`, `Json` | key normalisation, JSON arrays and a reader for them |

## What holds, and where the code falls short

- An accepted instruction is accepted on every extension of the input, with the same record, in
  every mode; so no proper prefix of it is accepted, and a byte string has at most one
  segmentation into instructions.
- In 64-bit mode the bytes of the instruction decide everything, operands included, and fifteen
  bytes decide acceptance. Outside 64-bit mode the decoder tests for up to two bytes past LES and
  BOUND (`PhantomDisassembler/Decoder.cpp:770-773`, `796-803`): locality holds exactly unless the
  input has, after its prefixes, an LES without SIB and displacement or a BOUND with at most one
  byte of them, and seventeen bytes decide.
- The operands are stable under extension exactly unless a 16-bit displacement with mod 2 is
  re-read as four bytes past the end of the buffer (`PhantomDisassembler/Decoder.cpp:3910`).
- The second reading of the displacement takes the streamed bytes exactly unless REX2 precedes a
  displacement (REX2 does not count as a prefix, `PhantomDisassembler/Decoder.cpp:203-217`), or the
  address width is 16 and the form is mod 2, or mod 0 with rm 5 (where the value is read but not
  used).
- The memory operand of an opcode that reads its displacement again denotes the address that
  chapter 2 of the Intel SDM, Volume 2A, gives to its bytes, exactly unless 67h in 64-bit mode makes
  the form EIP-relative (the base is then left out) or a 16-bit displacement is lost at the end of
  the buffer.
- The opcodes 69, 6B, 80-83, 8F, C0, C1, C6, C7, D0-D3, F6, F7, FE, FF and 0F 90-9F build their
  memory operand with displacement zero (`PhantomDisassembler/Decoder.cpp:424` and seven more
  places): it denotes the address of its bytes exactly when the form shows no displacement or one
  that is zero modulo the address width; in the EIP-relative form, when EIP plus displacement is.
  `add dword ptr [rax+8], 1` is decoded with operand `[rax]`.
- The default segment follows the three base bits, so that R12 and R13 get SS, and the 16-bit forms on
  SI and DI get SS while those on BP get DS.
- Registers without a name appear exactly in opcode maps 2 and 3, and these are the only
  validation issues that the harness loop can count.
- A rendered string array reads back as the original name and list exactly when the name needs no
  escape and the only control characters of the values are the five that the printer escapes.

Where code and documentation disagree the model follows the code: `PhantomDisassembler/Decoder.hpp:153` announces
`InvalidInput` for an invalid mode, but `Init` always returns `Success`; `PhantomDisassembler/Decoder.hpp:174` calls
the outputs of a failed decode undefined, but a call that passes the first two tests clears them.

## Model

The main results come first, then the inputs that meet each limit or exception, then the lemmas
that the main results rest on, and last the imperative operations with the functions they are
proved against.

| member | source | states |
|---|---|---|
| `Locality.Locality` | PhantomDisassembler/Decoder.cpp:181-327 | In every mode, a byte string that agrees with an accepted one on the bytes that the decoder examined decodes to the identical result, whatever follows |
| `Locality.ExtensionStable` | PhantomDisassembler/Decoder.cpp:181-327 | In every mode, every extension of an accepted input decodes to the same result |
| `Locality.PrefixFree` | Fuzzer/src/DisassemblerHarness.cpp:150-178 | No proper prefix of an accepted instruction is accepted, in any mode: what the truncation check demands |
| `Locality.LocalityLong64` | PhantomDisassembler/Decoder.cpp:181-327 | In 64-bit mode agreement on the first length bytes suffices for the identical result |
| `Stability.FullLocalityLong64` | PhantomDisassembler/Decoder.cpp:181-709 | In 64-bit mode agreement on the first length bytes gives the identical instruction record and the identical operands |
| `Lookahead.LocalityExact` | PhantomDisassembler/Decoder.cpp:770-803 | In every mode, the bytes of an accepted instruction decide the result if and only if the input does not have, outside 64-bit mode and after its prefixes, an LES without SIB and displacement or a BOUND with at most one byte of them |
| `Locality.FifteenBytesDecide` | PhantomDisassembler/Decoder.hpp:165-165 | With 15 bytes (17 outside 64-bit mode) an input is accepted if and only if each of its extensions is |
| `Locality.StatusFinality` | PhantomDisassembler/Decoder.cpp:196-327 | Only InvalidPrefix, TruncatedInput and InstructionTooLong occur as failures; the first and last survive every extension; TruncatedInput cannot occur with 28 bytes |
| `Raw.DecodeExact` | PhantomDisassembler/Decoder.cpp:181-327 | For every byte string, status, length and every context field are those of a reference that reads byte positions and opcode tables: truncation, invalid maps and the length limit exactly where it says |
| `Sweep.UniqueSegmentation` | Fuzzer/src/DisassemblerHarness.cpp:204-242 | Two segmentations of a byte string into accepted instructions are equal |
| `Sweep.SweepComposition` | Fuzzer/src/DisassemblerHarness.cpp:204-242 | If the sweep of A accepts all of A, the sweep of A followed by B is that sweep followed by the shifted sweep of B with the iterations that remain |
| `Sweep.SweepFindsSegmentation` | Fuzzer/src/DisassemblerHarness.cpp:204-242 | If a string has a segmentation within the iteration limit, the sweep accepts exactly its pieces |
| `Sweep.SweepTiles` | Fuzzer/src/DisassemblerHarness.cpp:216-241 | Accepted instructions and skipped bytes lie end to end, each at least one byte wide, and cover the input unless the iteration limit stops the loop |
| `Address.EffectiveAddress` | PhantomDisassembler/Decoder.cpp:3766-3964 | For every accepted legacy, REX or (in 64-bit mode) VEX encoded instruction, register file and instruction pointer: there is a memory operand exactly for the opcodes and forms that have one, and it denotes the address that tables 2-1 to 2-3 and RIP-relative addressing give to the raw ModRM, SIB, displacement and extension bits, if and only if its route keeps it: with the displacement read again, unless EIP or a 16-bit displacement is lost; with displacement zero, exactly when the displacement, or EIP plus displacement, is zero modulo the address width |
| `Notation.OperandsExact` | PhantomDisassembler/Decoder.cpp:381-708 | For every accepted instruction the operands are those that tables in the notation of appendix A of the Intel SDM, Volume 2, give to its opcode, in their order: which field names which register, of which width, which immediate, signed or relative |
| `Record.RecordExact` | PhantomDisassembler/Decoder.cpp:329-379 | For every accepted input each field of the record is what the bytes say: every attribute bit from the prefix bytes, pp and the lead byte; operand width from mode, 66h and the raw W bit; opcode, ModRM and SIB by position; VEX and EVEX fields; segment override; raw bytes and zeros after them |
| `Record.SegmentExact` | PhantomDisassembler/Decoder.cpp:3766-3866 | For every memory operand the segment is that of the last override byte, else SS exactly for base bits 4 and 5; the displacement flag says whether there are displacement bytes |
| `Notation.ImmediatesAgree` | PhantomDisassembler/Decoder.cpp:303-325 | For every immediate operand of an accepted instruction, branch offsets included, the bytes consumed are those of the size shown, at most four, with the exceptions B8-BF, C8, D0 and D1 |
| `Shape.RereadExact` | PhantomDisassembler/Decoder.cpp:3903-3951 | Size and offset of the second reading are those of the streamed displacement if and only if no REX2 precedes a displacement and 16-bit addressing uses neither mod 2 nor mod 0 with rm 5; the value then agrees |
| `Stability.OperandsStableExact` | PhantomDisassembler/Decoder.cpp:3903-3952 | The operands are the same on every extension if and only if no four-byte window of a 16-bit displacement leaves the buffer |
| `Stability.InstructionStable` | PhantomDisassembler/Decoder.cpp:329-379 | In every mode the complete record, raw bytes and counts included, is the same on every extension |
| `Conservation.ByteConservation` | PhantomDisassembler/Decoder.cpp:196-342 | The bytes of the instruction are exactly legacy prefixes, REX, REX2, VEX, EVEX or escape, opcode, ModRM, SIB, displacement and immediate, encoded again from the decoded fields in the form that was read; the sizes sum to the length; every field is in the range of its bits, displacement and immediate in the signed range of their size (unsigned for ENTER) |
| `Conservation.HeadUnique` | PhantomDisassembler/Decoder.cpp:750-846 | The bytes of REX2, VEX, EVEX or an escape determine every field they carry |
| `Conservation.FieldUnique` | PhantomDisassembler/Decoder.cpp:867-892 | The bytes of a displacement or immediate and its range determine its value |
| `Prefixes.ScanMeaning` | PhantomDisassembler/Decoder.cpp:715-744 | The prefix phase takes the longest run of at most 15 of the eleven legacy prefixes; its effect is which of them occur and the segment of the last override; in 64-bit mode the four bits whose encoding is the REX byte after it |
| `Prefixes.RexUnique` | PhantomDisassembler/Decoder.cpp:718-724 | The REX byte determines W, R, X and B |
| `Prefixes.PermutationInvariance` | PhantomDisassembler/Decoder.cpp:715-744 | Exchanging the legacy prefixes of an accepted instruction for others of the same length, kinds and final segment override changes neither operands nor any field but the raw bytes |
| `Prefixes.ReorderingIsInterchangeable` | PhantomDisassembler/Decoder.cpp:715-744 | Every reordering with the same final segment override is such an exchange |
| `WellFormed.OperandsWellFormed` | PhantomDisassembler/Decoder.cpp:381-708 | At most three operands; in maps 0 and 1 each register is real and of its stated width; each memory operand has a real segment, base and index of the address width (or RIP), a scale in 1, 2, 4, 8 if and only if an index; values are in range |
| `WellFormed.SlotsTyped` | PhantomDisassembler/Decoder.cpp:381-708 | A slot of the operand array has a type if and only if it lies below the operand count, which is at most three and equals the visible count |
| `WellFormed.NoneCountExact` | PhantomDisassembler/Decoder.cpp:698-706 | Register operands without a register: none in maps 0 and 1, otherwise two with a register form and one with a memory form |
| `Harness.ExerciseDecodeLoop` | Fuzzer/src/DisassemblerHarness.cpp:204-242 | The loop runs the sweep: one anomaly for each step, issues only from maps 2 and 3, parsedOk if and only if it was set or a step was accepted; an uninitialised decoder skips byte by byte |
| `Harness.AcceptedIssues` | Fuzzer/src/DisassemblerHarness.cpp:123-148 | On an accepted instruction the self-check finds nothing but the unnamed registers of maps 2 and 3 |
| `Harness.IssuesExact` | Fuzzer/src/DisassemblerHarness.cpp:129-147 | The self-check counts nothing exactly when the length is 1 to 15 and inside the input, there are at most four operands, and every register operand has a register |
| `Formatter.Formatter.FormatInstruction` | PhantomDisassembler/Formatter.cpp:155-216 | For every buffer size of at least one: exactly the first min(size - 1, length) characters of the unbounded text, a terminator in bounds, Success always, the truncation branch dead; the error cases leave the buffer alone |
| `Names.MemoryTextInjective` | PhantomDisassembler/Formatter.cpp:354-434 | The text of a memory operand determines size, segment, base, index, scale and displacement value |
| `Names.DecodedMemoryInjective` | PhantomDisassembler/Decoder.cpp:3766-3866 | So it does for the memory operands of any two accepted instructions, in any two modes |
| `Readers.DecodedMemoryReads` | PhantomDisassembler/Formatter.cpp:354-434 | A reader of memory texts returns size, segment, base, index, scale and displacement of every memory operand of an accepted instruction |
| `Readers.DecodedImmediateReads` | PhantomDisassembler/Formatter.cpp:464-489 | A reader of a minus sign, one decimal digit or hexadecimal returns the value of every signed immediate that is no branch, and the 64-bit pattern of every unsigned one |
| `Readers.RegisterNaming` | PhantomDisassembler/Decoder.cpp:3637-3683 | The register that a number, a width and REX select prints as its name by the naming rule, byte registers included |
| `Lines.LineSplits` | PhantomDisassembler/Formatter.cpp:187-205 | What follows the mnemonic of an accepted instruction splits at its commas into exactly the texts of its operands |
| `Lines.PrefixWordsExact` | PhantomDisassembler/Formatter.cpp:222-249 | The words before the mnemonic are those of the prefix bytes F0, F3 and F2 or of pp |
| `Numbers.HexRoundTrip` | PhantomDisassembler/Formatter.cpp:94-116 | Hexadecimal text has only hex digits, no superfluous leading zero, and parses back to its value |
| `Disassemble.Disassemble` | PhantomDisassembler/PhantomDisasm.hpp:54-84 | The status, record, operands and text of the composition; a failed decode clears record and operands and leaves the text alone, an empty input leaves all; a buffer longer than the line of a relative branch holds its mnemonic, its target and the terminator; formatting never changes the status |
| `Disassemble.BranchTargetText` | PhantomDisassembler/Formatter.cpp:452-462 | The text of every relative branch is its mnemonic and the hexadecimal of (address + length + sign-extended last bytes) modulo 2^64, and parses back to that address |
| `Disassemble.DecodedOperands` | PhantomDisassembler/Formatter.cpp:405-466 | No operand that the decoder produced makes the formatter negate the least 64-bit integer |
| `Keys.SanitizeKey` | Fuzzer/src/CampaignPlanner.cpp:80-106 | The three loops return the lower-cased alphanumeric runs joined by single dashes, or the default |
| `Keys.KeyIdempotent` | Fuzzer/src/CampaignPlanner.cpp:80-106 | Normalising twice is normalising once, and a key is never empty |
| `Keys.KeyCharacters` | Fuzzer/src/CampaignPlanner.cpp:98-105 | A key holds only lower-case letters, digits and dashes, and starts and ends with none of the dashes |
| `Keys.KeyIgnoresCase` | Fuzzer/src/CampaignPlanner.cpp:86-87 | The case of the input does not matter |
| `Keys.WordsSplit` | Fuzzer/src/CampaignPlanner.cpp:84-96 | A character that is no letter or digit separates: the words of the two sides are the words of the whole |
| `Keys.WordsOfRun` | Fuzzer/src/CampaignPlanner.cpp:84-96 | A run of letters and digits is one word, in lower case |
| `Json.RenderRoundTrip` | Fuzzer/src/CampaignPlanner.cpp:41-59 | A reader after sections 2, 5 and 7 of RFC 8259 returns name and list if and only if the name needs no escape and the only control characters of the values are the five escaped ones; with such a name and other values it refuses the text |
| `Json.MemberLines` | Fuzzer/src/CampaignPlanner.cpp:46-58 | The layout: first line, one element to a line two blanks further in with a comma after all but the last, closing line |
| `Limits.SeventeenIsTight` | PhantomDisassembler/Decoder.cpp:796-803 | A 16-byte input in 32-bit mode that is refused as truncated and accepted with one more byte |
| `Limits.TwentyEightIsTight` | PhantomDisassembler/Decoder.cpp:202-217 | A 27-byte input that is still truncated |
| `Limits.TwoByteLes` | PhantomDisassembler/Decoder.cpp:770-774 | A two-byte LES is accepted before any third byte and refused at the end of the input |
| `Limits.DisplacementDropped` | PhantomDisassembler/Decoder.cpp:414-426 | For 83 40 08 01 the memory operand denotes another address than the bytes, for every register file and instruction pointer |
| `Limits.EipDropped` | PhantomDisassembler/Decoder.cpp:3813-3822 | For 67 8B 05 and a zero displacement it does so at every instruction pointer that is not zero modulo 2^32 |
| `Limits.SixteenBitDisplacementDropped` | PhantomDisassembler/Decoder.cpp:3908-3951 | For 8B 87 34 12 in 16-bit mode it does so too |
| `Limits.OverreadAtEnd` | PhantomDisassembler/Decoder.cpp:3908-3951 | An input in 16-bit mode whose displacement 1234h is consumed and then read again as zero, past the end |
| `Limits.Rex2RereadsOpcode` | PhantomDisassembler/Decoder.cpp:202-217 | An input with REX2 whose displacement 8 is read again from the opcode byte |
| `Limits.NoDisplacementReread` | PhantomDisassembler/Decoder.cpp:3911-3916 | An input in 16-bit mode that has no displacement and reads four bytes of it |
| `Json.ControlCharacterLost` | Fuzzer/src/CampaignPlanner.cpp:32-34 | A value with U+0001 makes the text unreadable, and a name that is a quotation mark does not come back |
| `Locality.ExaminedBound` | PhantomDisassembler/Decoder.cpp:750-823 | An accepted instruction has 1 to 15 bytes inside the buffer; at most two bytes past it are examined, and none in 64-bit mode |
| `Locality.LengthBound` | PhantomDisassembler/Instruction.hpp:139-140 | The length of an accepted instruction is between 1 and 15 and within the input |
| `Lookahead.LooksPastExact` | PhantomDisassembler/Decoder.cpp:770-803 | That guard on the input bytes holds exactly when bytes past the accepted instruction were examined |
| `Raw.HeadExact` | PhantomDisassembler/Decoder.cpp:202-257 | Status of the head and every field it leaves, for every input, from the bytes |
| `Raw.BodyExact` | PhantomDisassembler/Decoder.cpp:259-325 | After the head: truncation exactly when the length is not there, widths, ModRM, SIB and length from bytes and tables |
| `Raw.PrefixesExact` | PhantomDisassembler/Decoder.cpp:715-744 | The prefix phase, for every input, from the bytes |
| `OpcodeMap.EntriesFit` | PhantomDisassembler/Decoder.cpp:898-1056 | For every opcode the tests for ModRM and the immediate size agree with an opcode table |
| `Notation.ListFollows` | PhantomDisassembler/Decoder.cpp:381-708 | The operand list of every opcode, row by row of the tables |
| `Record.DefaultAgreesWithManual` | PhantomDisassembler/Decoder.cpp:3749-3754 | The default segment is the manual's exactly outside R12, R13 and the 16-bit forms without BX |
| `Prefixes.LegacyTable` | PhantomDisassembler/Decoder.cpp:727-741 | Which bytes are legacy prefixes, and the segment of each override |
| `Conservation.RexConserved` | PhantomDisassembler/Decoder.cpp:718-724 | The byte between the legacy prefixes and the head is the encoding of the REX bits |
| `Locality.LookaheadMatters` | PhantomDisassembler/Decoder.cpp:770-803 | Wherever it did look past them, the bytes of the instruction alone are refused |
| `Locality.TailFails` | PhantomDisassembler/Decoder.cpp:278-325 | The size defaults InvalidModRM and InvalidOpcode are unreachable; displacement and immediate fail only by truncation, within 8 bytes |
| `Locality.BodyFails` | PhantomDisassembler/Decoder.cpp:259-325 | After the opcode only TruncatedInput can occur, and only with fewer than 10 bytes left |
| `Stability.ListShows` | PhantomDisassembler/Decoder.cpp:381-708 | Two displacements give the same operand list if and only if they are equal or the list does not show them; the operand count never depends on them |
| `Shape.Run` | PhantomDisassembler/Decoder.cpp:196-327 | Every accepting run passes through prefixes, head, addressing and tail whose fields are the bytes at consecutive offsets |
| `Shape.RereadInside` | PhantomDisassembler/Decoder.cpp:3918-3951 | With 32- and 64-bit addresses the second reading stays inside the instruction, REX2 included, and after the legacy prefixes |
| `Address.ListMemory` | PhantomDisassembler/Decoder.cpp:381-708 | Which opcodes have a memory operand, and which of them build it from the displacement read again and which from zero |
| `Address.StreamedAddress` | PhantomDisassembler/Decoder.cpp:262-300 | With the streamed displacement and the decoded extension bits, registers, scale and displacement add up to what tables 2-1 to 2-3 give to the bytes, if and only if the form is not EIP-relative with a nonzero pointer |
| `Address.RawBits` | PhantomDisassembler/Decoder.cpp:715-790 | The extension bits and the place of ModRM that the decoder uses are those of the raw REX or VEX bytes |
| `Address.RereadModulo` | PhantomDisassembler/Decoder.cpp:3903-3951 | The displacement read again is the streamed one modulo the address width if and only if it is not lost |
| `WellFormed.MemoryWellFormed` | PhantomDisassembler/Decoder.cpp:3766-3866 | The invariant of one memory operand, for every addressing form |
| `Conservation.HeadConserved` | PhantomDisassembler/Decoder.cpp:202-257 | Every field of REX2, VEX, EVEX and the opcode escapes is recovered: encoding them gives the bytes that were read |
| `Conservation.DisplacementConserved` | PhantomDisassembler/Decoder.cpp:867-876 | The low bytes of the sign-extended displacement are the bytes read |
| `Conservation.ImmediateConserved` | PhantomDisassembler/Decoder.cpp:878-892 | The low bytes of the extended immediate are the bytes read |
| `Prefixes.FoldMeaning` | PhantomDisassembler/Decoder.cpp:727-741 | Applying prefixes one after the other is the same as the order-free meaning |
| `Prefixes.AddressWidthMeaning` | PhantomDisassembler/Decoder.cpp:154-175 | The address width of an accepted instruction depends only on the mode and on whether 67h is among its prefixes |
| `Prefixes.StreamInterchangeable` | PhantomDisassembler/Decoder.cpp:181-327 | Such an exchange leaves the whole streamed result as it is |
| `Names.AddressingNameInjective` | PhantomDisassembler/Types.hpp:1966-2185 | The printed name of an addressing register determines the register |
| `Names.UniqueTokens` | PhantomDisassembler/Formatter.cpp:354-434 | A text has at most one division into words and separators |
| `Names.FlatMemory` | PhantomDisassembler/Formatter.cpp:361-433 | The memory text is the concatenation of its tokens |
| `Readers.MemoryReads` | PhantomDisassembler/Formatter.cpp:354-434 | The reader inverts the memory text, for every operand of the decoder's shape |
| `Readers.ImmediateReads` | PhantomDisassembler/Formatter.cpp:464-489 | The reader inverts the immediate text, for every 64-bit value |
| `Readers.FarReads` | PhantomDisassembler/Formatter.cpp:280-289 | The far pointer text reads back as selector and offset |
| `Disassemble.BranchSize` | PhantomDisassembler/Decoder.cpp:878-892 | The immediate of a relative branch is the sign-extended field that ends the instruction: one byte, or two or four by the operand width for E8, E9 and 0F 80-8F |
| `Disassemble.BranchFields` | PhantomDisassembler/Decoder.cpp:407-413 | A relative branch has one operand, whose value is its immediate |
| `Keys.WordsOfJoin` | Fuzzer/src/CampaignPlanner.cpp:84-96 | The runs of joined words are the words |
| `Keys.AsciiClasses` | Fuzzer/src/CampaignPlanner.cpp:86-87 | Letters and digits by their codes, and lower case as code plus 32 |
| `Json.ReadEscaped` | Fuzzer/src/CampaignPlanner.cpp:19-39 | A string reader after section 7 of RFC 8259 returns the original before the closing mark, if and only if the string has no control character without an escape |
| `Json.RawNameLost` | Fuzzer/src/CampaignPlanner.cpp:46-46 | A name that needs an escape, printed raw, never reads back as itself, whatever follows |
| `Formatter.WroteBoth` | PhantomDisassembler/Formatter.cpp:62-65 | Two bounded appends in a row are the bounded append of the concatenation |
| `Formatter.WroteFits` | PhantomDisassembler/Formatter.cpp:62-65 | After every append the position is below what remained, so no difference underflows |
| `Formatter.WroteFull` | PhantomDisassembler/Formatter.cpp:188-205 | A full buffer already holds all that fits of any longer text, so the loop may stop |
| `Numbers.SixteenDigits` | PhantomDisassembler/Formatter.cpp:106-112 | A 64-bit value has at most sixteen digits |
| `Formatter.ReverseBackwards` | PhantomDisassembler/Formatter.cpp:106-116 | Reversing the digits of the loop gives the hexadecimal text |
| `Decoder.DecodeContext.constructor` | PhantomDisassembler/Decoder.cpp:82-96 | A fresh context holds the reset values and the whole input |
| `Decoder.ApplyPrefix` | PhantomDisassembler/Decoder.cpp:727-741 | The switch recognises exactly the eleven legacy prefixes and records the effect of each |
| `Decoder.DecodePrefixes` | PhantomDisassembler/Decoder.cpp:715-744 | The loop leaves the context as the prefix scan says, whose meaning is ScanMeaning, and always succeeds |
| `Decoder.DecodeRex2` | PhantomDisassembler/Decoder.cpp:203-219 | REX2 phase against its function: truncation, fields, opcode |
| `Decoder.DecodeVEX` | PhantomDisassembler/Decoder.cpp:750-790 | VEX phase against its function: both forms, the mode test, truncation and the map test |
| `Decoder.DecodeEVEX` | PhantomDisassembler/Decoder.cpp:796-823 | EVEX phase against its function |
| `Decoder.VectorOpcode` | PhantomDisassembler/Decoder.cpp:228-236 | Opcode byte and map after VEX or EVEX |
| `Decoder.DecodeOpcode` | PhantomDisassembler/Decoder.cpp:829-846 | Opcode escapes against their function |
| `Decoder.DecodeHead` | PhantomDisassembler/Decoder.cpp:202-257 | The order in which REX2, VEX, EVEX and the opcode are tried |
| `Decoder.ResolveEffectiveSizes` | PhantomDisassembler/Decoder.cpp:154-175 | Operand and address width for each mode |
| `Decoder.DecodeModRM` | PhantomDisassembler/Decoder.cpp:852-858 | ModRM phase against its function |
| `Decoder.DecodeSIB` | PhantomDisassembler/Decoder.cpp:860-865 | SIB phase against its function |
| `Decoder.DecodeAddressing` | PhantomDisassembler/Decoder.cpp:262-276 | ModRM and SIB are read exactly where opcode and ModRM ask for them |
| `Decoder.DecodeDisplacement` | PhantomDisassembler/Decoder.cpp:867-876 | Value, new offset, truncation and the unreachable default, size by size |
| `Decoder.DecodeImmediate` | PhantomDisassembler/Decoder.cpp:878-892 | The same for immediates, with the three-byte form |
| `Decoder.DecodeTail` | PhantomDisassembler/Decoder.cpp:278-325 | Displacement, then immediate, each only if its size is positive |
| `Decoder.RunPhases` | PhantomDisassembler/Decoder.cpp:196-327 | On a reset context the phases end with the status, context and immediate of the streaming function |
| `Decoder.Decoder.Init` | PhantomDisassembler/Decoder.cpp:144-148 | The mode is stored and the status is always Success |
| `Decoder.Decoder.DecodeFull` | PhantomDisassembler/Decoder.cpp:181-709 | The whole call: InvalidInput before InternalError, outputs untouched by both; outputs cleared by a failed decode; otherwise the record, and an operand array holding exactly the operands and empty slots after them |
| `Builder.BuildMemOperand` | PhantomDisassembler/Decoder.cpp:3766-3866 | Field by field, the operand becomes the memory form of the context |
| `Builder.SibBase` | PhantomDisassembler/Decoder.cpp:3841-3857 | Base, segment and displacement of a SIB form |
| `Builder.RereadDisplacement` | PhantomDisassembler/Decoder.cpp:3903-3951 | The second reading: window from the prefix count and the opcode length, zero when it leaves the buffer |
| `Builder.DecodeModRMOperands` | PhantomDisassembler/Decoder.cpp:3882-3964 | The first two slots become the pair in the order asked for, with the displacement read again; the other slots stay |
| `Builder.BuildArithmetic` | PhantomDisassembler/Decoder.cpp:384-401 | Operands of opcodes 00-3D |
| `Builder.BuildMiddle` | PhantomDisassembler/Decoder.cpp:402-456 | Operands of opcodes 50-8F (with lines 626-649 for 68-6B) |
| `Builder.BuildUpper` | PhantomDisassembler/Decoder.cpp:457-550 | Operands of opcodes 90-CF |
| `Builder.BuildTop` | PhantomDisassembler/Decoder.cpp:498-625 | Operands of opcodes D0-FF |
| `Builder.BuildTwoByte` | PhantomDisassembler/Decoder.cpp:653-696 | Operands of opcode map 1 |
| `Builder.BuildThreeByte` | PhantomDisassembler/Decoder.cpp:697-706 | Operands of opcode maps 2 and 3 |
| `Builder.BuildOperands` | PhantomDisassembler/Decoder.cpp:381-706 | The switch leaves the array with exactly the operand list and returns its length |
| `Harness.RecordFailure` | Fuzzer/src/DisassemblerHarness.cpp:119-121 | The anomaly counter grows by one modulo 2^32 |
| `Harness.ValidateSuccessfulDecode` | Fuzzer/src/DisassemblerHarness.cpp:123-148 | The issue counter grows by the length tests, the operand count test and the registers without a register, modulo 2^32 |
| `Harness.ExerciseTruncation` | Fuzzer/src/DisassemblerHarness.cpp:150-178 | One issue if the length is over 15 or the shortened input is accepted, otherwise one anomaly |
| `Harness.ExerciseAt` | Fuzzer/src/DisassemblerHarness.cpp:217-240 | One iteration: the advance is the width of the step, exactly one anomaly is counted, truncation never counts an issue, and the advance fallback is dead |
| `Formatter.DigitLoop` | PhantomDisassembler/Formatter.cpp:106-112 | The loop stays inside its sixteen characters and leaves the digits, least significant first |
| `Formatter.CopyReversed` | PhantomDisassembler/Formatter.cpp:113-115 | The digits follow in reverse what the scratch array held |
| `Formatter.SafeAppend` | PhantomDisassembler/Formatter.cpp:67-78 | Exactly the characters that fit before the last place are written, and nothing else changes |
| `Formatter.SafeAppendChar` | PhantomDisassembler/Formatter.cpp:80-86 | The same for one character |
| `Formatter.SafeAppendHex` | PhantomDisassembler/Formatter.cpp:88-120 | The same for the hexadecimal text, with both scratch arrays in bounds |
| `Formatter.AppendLowercase` | PhantomDisassembler/Formatter.cpp:35-46 | The same for a lower-cased name |
| `Formatter.FormatRegister` | PhantomDisassembler/Formatter.cpp:301-312 | Bounded append of the register name |
| `Formatter.FormatSizePrefix` | PhantomDisassembler/Formatter.cpp:318-337 | Bounded append of the size qualifier |
| `Formatter.FormatIndex` | PhantomDisassembler/Formatter.cpp:382-396 | Bounded append of index and scale |
| `Formatter.FormatDisplacement` | PhantomDisassembler/Formatter.cpp:398-428 | Bounded append of the displacement, signed after a register and unsigned alone |
| `Formatter.FormatMemory` | PhantomDisassembler/Formatter.cpp:354-434 | Bounded append of the complete memory text |
| `Formatter.FormatImmediate` | PhantomDisassembler/Formatter.cpp:445-489 | Bounded append of an immediate or of an absolute branch target |
| `Formatter.FormatFarPointer` | PhantomDisassembler/Formatter.cpp:280-289 | Bounded append of selector and offset |
| `Formatter.FormatOperand` | PhantomDisassembler/Formatter.cpp:255-295 | Bounded append of any operand |
| `Formatter.FormatMnemonic` | PhantomDisassembler/Formatter.cpp:222-249 | Bounded append of the prefix words and the mnemonic |
| `Formatter.FormatOperands` | PhantomDisassembler/Formatter.cpp:187-205 | Bounded append of all operands with their separators, although the loop stops when the buffer is full |
| `Formatter.Formatter.Init` | PhantomDisassembler/Formatter.cpp:141-149 | Both styles are accepted |
| `Json.EscapeJson` | Fuzzer/src/CampaignPlanner.cpp:19-39 | The loop returns the escaped string |
| `Json.RenderStringArray` | Fuzzer/src/CampaignPlanner.cpp:41-59 | The stream grows by the text of the member, empty and non-empty arrays alike |

## Left out

- The mnemonic, category and ISA-extension tables and `MnemonicToString`: arbitrary functions of the mode and the finished context, and of the mnemonic. They never read the buffer.
- Agreement of lengths and operands with the full Intel opcode maps, EVEX compressed displacement, APX high registers and SIMD registers: the code does not implement them.
- Registers that the decoder never puts into an operand, and their names.
- AT&T syntax: `Init` accepts the style, and the formatter prints Intel syntax only.
- The instruction record is assembled as one value after operand building, not field by field. Reset's instruction pointer field, which nothing reads, has no counterpart.
- A null input buffer is the empty byte string. Pointers into buffers are a start index and a count.
- Addresses, offsets and lengths are unbounded; wrap-around is written out where the code relies on it (branch targets, displacements printed as unsigned, harness counters).
- `ExerciseSingleDecode`, `ExerciseMode` and the fixed buffers of the harness: they call the modelled operations on constants.
- `AppendView` and `SafeAppendSignedHex`, which nothing calls.
- Structured-exception wrappers, timing, console output, the other harnesses and the catalogs of the fuzzer.
- Address.EffectiveAddress: does not cover REX2 and EVEX, VEX outside 64-bit mode and the VEX gathers, where the manual's address takes more than tables 2-1 to 2-3 (register bits X4 and B4, a scaled disp8, an ignored B bit, a vector index) and the code does not implement it; StreamedAddress says what the code computes there.
- Json.RenderRoundTrip: takes the indent to be white space, as its callers pass it; UTF-8 validity is not modelled, and the reader has no four-digit escapes, which the printer never writes.
- Keys.SanitizeKey: models the character classes of the C locale on single-byte characters.
- Formatter.SafeAppend: its source string is the characters before the terminator.
