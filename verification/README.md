# waivm verification

waivm is a small register machine: eight signed 64-bit registers, 64 KiB of
byte memory with the stack at its top, 41 opcodes in packed 12-byte records. It
executes programs twice over, once in a C stepper (`src/vm.c`) and once in a
hand-written NASM loop (`asm/vm_linux_x86_64.asm`), and surrounds them with a
verifier, an assembler, a disassembler, a binary format, a tracer and a
debugger. This project models those parts in Dafny and proves that they agree
with each other: over all programs, all runs and all inputs.

`dafny verify dfyconfig.toml` checks everything.

## How the model is laid out

| file | what it holds |
|---|---|
| `Words.dfy`, `Isa.dfy` | 64-bit words in both readings, their bytes and bits; records, opcodes and the families they fall into |
| `Machine.dfy`, `InstructionSet.dfy` | the shared meaning of one instruction and of a run; the same opcode by opcode number, in plain arithmetic |
| `Vm.dfy` | the C engine: an object updated in place, one method per group of switch cases, proved to take the shared step |
| `Nasm.dfy` | the NASM engine: raw registers, the host stack, one method per label, proved to take the shared step |
| `Engines.dfy` | the two engines side by side |
| `Verifier.dfy`, `Safety.dfy` | the static checks, and what their verdict means for runs |
| `Stack.dfy` | the stack inside memory, call and return |
| `ProgramBuffer.dfy`, `Bytecode.dfy`, `FileLayout.dfy` | the growing array of a program, the `.waibc` codec and its own validator, the format byte by byte |
| `Text.dfy`, `Syntax.dfy`, `Assembler.dfy`, `Labels.dfy` | numbers and tokens, one source line, the single pass with backpatching against a two-pass reference, what labels mean |
| `Disassembler.dfy`, `Symbolic.dfy`, `SourceForms.dfy` | listings and the way back, which programs the assembler can produce, the forms of the language letter by letter |
| `Trace.dfy`, `TraceLimit.dfy`, `Debugger.dfy`, `Commands.dfy` | the two drivers of the C engine and the one run they walk along; the step limit on known runs, what each typed line does to a session |
| `Fibonacci.dfy`, `EndToEnd.dfy` | `examples/fib.wai`, from its text to its output |

The shared step is a function on states whose arithmetic wraps at 64 bits. Each
engine's own code is a method over mutable fields, written with that engine's
own operations (signed C arithmetic and byte loops on one side, unsigned words
with quadword loads on the other), and proved to produce the function's
outcome; what is then proved about runs of the function holds for both. What the
function and the other shared definitions mean is pinned down in numbers and
letters, without naming them, in `InstructionSet.dfy`, `FileLayout.dfy`,
`SourceForms.dfy`, `TraceLimit.dfy` and `Commands.dfy`.

## What the statements rest on

- C leaves signed overflow undefined (section 6.5 paragraph 5 and section 6.5.5
  of ISO/IEC 9899:2018). The C engine's contracts therefore ask that the step
  about to run is exact (`StepDefined`), and statements about many steps that
  the steps they take are (`DefinedFor`); what a run might do later does not
  matter. The NASM engine has no such demand and wraps. `INT64_MIN / -1` and
  `INT64_MIN % -1` are undefined in C and a divide fault on the processor: the
  outcome `Trap`, about which the NASM engine's entry point claims nothing.
- Conversions from `uint64_t` to `wai_value` above INT64_MAX (`src/vm.c:85`,
  `src/vm.c:319-374`, `src/bytecode.c:101`) are implementation-defined (section
  6.3.1.3 of ISO/IEC 9899:2018). The model takes them as every compiler for the
  target does, as the two's-complement reading of the same bits (`Words.ToI64`).
- The C code holds at most 2^63 instructions and the NASM code fits the address
  space, 12 bytes a record; so does a program claimed to be in the assembler's
  image. Lines of a source number fewer than 2^63.
- A run that never ends gives no result to state. Methods that execute to the
  end take a ghost step count by which the run is over; the debugger's
  `continue` takes one by which it pauses. They bound nothing at run time, and
  `Engines.Lockstep` and `Debugger.ResumeFinds` cover runs of any length.
- `strtoll` and `strtoull` with base 0 follow section 7.22.1.4 of ISO/IEC
  9899:2018; character classes are those of the C locale.
- Host-stack alignment is that of section 3.2.2 of the System V AMD64 ABI.

## Where the code departs from what one would expect

- `HALT` clears the error field in the NASM engine and not in the C engine
  (`asm/vm_linux_x86_64.asm:436-439`, `src/vm.c:249-251`).
  `Engines.StepTogether` gives the exact condition for the fields to agree, and
  `Engines.StaleErrorAtHalt` a program on which they part.
- An empty program has a null code pointer: the C stepper then returns a parse
  error without recording it, the NASM engine reports an out-of-bounds ip, and
  the debugger, returning the recorded error, ends with OK
  (`Engines.EmptyProgram`, `Debugger.RunDebugger`).
- The flags field of a `.waibc` header is documented as 0
  (`docs/bytecode-format.md:22`) but never checked; the model follows the code
  (`Bytecode.NonzeroFlagsAccepted`, `Bytecode.RewriteIdentity`).
- The verifier also rejects a zero immediate divisor, which its document
  (`docs/verifier.md:11-18`) does not list; the model follows the code.
- Label names are kept to 63 characters. A longer label defined twice goes
  unreported, and a branch to an undefined long label is silently assembled as
  a branch to another that begins alike. `Labels.ClashIsRepetition` and
  `Labels.LookupIsByName` have the exact conditions.
- Disassembled branches cannot be assembled again: they print an index where
  the assembler wants a label (`Disassembler.InstructionRoundTrip`).
- The debugger accepts a negative breakpoint index that is in range modulo 2^64
  (`Debugger.IndexAccepted`).
- A `CALL` in the last instruction cannot return (`Stack.CallReturn`).

## Model

The headline results come first, then the pieces they are built from, file by
file.

| member | source | states |
|---|---|---|
| Engines.StepTogether | src/vm.c:140-380 | From any state of two machines that share no storage, one C step and one turn of the NASM loop leave the same registers, ip, flag, memory, stack pointer, output and halt state wherever C arithmetic is defined; the loop exits exactly when the step fails or the machine is halted; the NASM error field is the C one, or OK after HALT, so that the fields agree afterwards if and only if it is not the case that a stale error is pending and the instruction at ip is HALT |
| Engines.StaleErrorAtHalt | asm/vm_linux_x86_64.asm:436-439 | The fields do part: any two machines at power-on with the verified program `div r0, r1; halt`, taken two steps together, end halted in the same state with the C field at DIV_ZERO and the NASM field at OK |
| Engines.HaltsAtHalt | src/vm.c:249-251 | A step halts a machine if and only if it executes HALT |
| Engines.Lockstep | asm/vm_linux_x86_64.asm:93-709 | For every n, as far as C defines the first n steps and whatever happens later: n turns of the two engines stay together, and both are n steps of the one run |
| Engines.StepToEnd | src/vm.c:140-380 | Repeating the C step until it halts or fails ends exactly in the end of the run, with that end's error |
| Engines.BothEngines | src/vm.c:382-388 | Any program whose run ends, its steps being defined in C: both engines, each started from power-on on that program, end in the end of its run, with the same return value and error field, those of the run |
| Engines.EmptyProgram | src/vm.c:141-143 | Without code the engines part on any machine: the C stepper returns a parse error, records none and moves nothing; the NASM loop takes the step that a run without instructions takes, recording an out-of-bounds ip unless the machine has halted |
| Nasm.Execute | src/vm.c:382-388 | Whatever the error field holds on entry, the engine behind `run` returns OK or the recorded error and leaves the VM in the unique end of the run; HALT leaves the field at OK, a machine already halted keeps it |
| Nasm.Cpu.ExecAsm | asm/vm_linux_x86_64.asm:82-709 | From the call to the ret, whatever the error field holds on entry: eax is 0 exactly on a run that ends halted, otherwise 1 with the run's error recorded; the return address and nothing else is taken off the host stack, and rbp, rbx and r12 to r15 come back as the caller left them |
| InstructionSet.AddStep | src/vm.c:171-180 | What both engines compute, opcode by opcode number and in plain arithmetic, from any state: ADD (3, 4) leaves in register a the number that differs from the sum by a multiple of 2^64, the flag telling whether it is zero, ip on the next index and all else as it was; C defines it exactly where the sum fits |
| InstructionSet.SubtractStep | src/vm.c:181-190 | SUB (5, 6) likewise |
| InstructionSet.MultiplyStep | src/vm.c:191-200 | MUL (7, 8) likewise |
| InstructionSet.DivideStep | src/vm.c:201-226 | DIV (9, 10) leaves the q and MOD (29, 30) the m with x = q * y + m, m smaller than y and on the side of x; a zero divisor is DIV_ZERO, and INT64_MIN by -1, exactly where C leaves it undefined, kills the process |
| InstructionSet.AndStep | src/vm.c:317-326 | AND (31, 32): each of the 64 bits left, read by division of the unsigned reading, is the product of the two it was |
| InstructionSet.OrStep | src/vm.c:327-336 | OR (33, 34): the sum less the product |
| InstructionSet.XorStep | src/vm.c:337-346 | XOR (35, 36): the sum modulo 2 |
| InstructionSet.NotStep | src/vm.c:347-351 | NOT (37) leaves -x - 1 |
| InstructionSet.ShiftLeftStep | src/vm.c:352-363 | SHL (38, 39) leaves what 64 bits keep of x * 2^y for y in 0..63 and is BAD_SHIFT for any other |
| InstructionSet.ShiftRightStep | src/vm.c:364-375 | SHR (40, 41) leaves the unsigned quotient of x by 2^y, under the same condition |
| InstructionSet.CompareAndBranch | src/vm.c:295-314 | On any run: after `cmp` of equal operands JE lands on its immediate and JNE on the next index, after `cmp` of unequal ones the reverse; a target outside the code is BAD_JUMP only when taken |
| InstructionSet.JumpOnRegisterStep | src/vm.c:231-244 | JZ (12) jumps on zero and JNZ (13) on every other value, negative ones included; otherwise nothing but ip moves |
| InstructionSet.LoadStep | src/vm.c:252-265 | LOAD (16, 17) leaves the number whose k-th byte is the one at address + k, for addresses 0 to 65528, aligned or not, and is MEMORY_OOB for any other |
| InstructionSet.StoreStep | src/vm.c:266-275 | STORE (18, 19) puts the k-th byte of the register at address + k and changes no other byte, under the same condition |
| InstructionSet.CallStep | src/vm.c:285-289 | CALL (22) refuses a target outside the code before it looks at the stack, overflows with less than 8 bytes below sp, and else leaves the next index in the eight bytes below sp and lands on the target |
| InstructionSet.ReturnStep | src/vm.c:290-294 | RET (23) underflows above 65528, else takes the word at sp and lands on it, or refuses it with the word already taken |
| Safety.VerifierSound | src/verifier.c:65-172 | In every run from power-on of a program that verifies, no bad opcode, bad register or bad immediate ever surfaces: each error comes from an instruction that can raise it at run time (BAD_JUMP only from RET, BAD_SHIFT only from SHL/SHR by register, DIV_ZERO only from DIV/MOD by register, MEMORY_OOB only from LOAD/STORE by register, overflow from PUSH/CALL, underflow from POP/RET), the processor traps only where INT64_MIN is divided by -1, and ip never leaves a program whose last instruction is HALT, JMP, CALL or RET |
| InstructionSet.VerdictInNumbers | src/verifier.c:65-172 | The verdict on one record in numbers: reserved field, opcode 1 to 41, registers 0 to 7 where the opcode uses them, targets 0..count-1, divisors, addresses 0 to 65528 and shift counts 0 to 63, in that order |
| Safety.MayRaiseAttained | src/vm.c:207-294 | The list of errors a verified instruction can still raise is tight: for each pair there is a verified program whose run from power-on fails in just that way, the stack overflows after 8192 words included |
| Safety.VerifiedTraps | asm/vm_linux_x86_64.asm:350-361 | A verified program closed by HALT can kill the process from power-on: INT64_MIN divided by an immediate -1 |
| Safety.RejectedRun | src/verifier.c:65-172 | Conversely a run that reaches an instruction the verifier rejects, for any reason but the reserved field that no engine looks at, and takes it if it is a conditional branch, ends there with just the error the verifier gives |
| Safety.HarmlessRun | src/verifier.c:53-176 | The error-free fragment: a verified program that ends in HALT or JMP and has no PUSH, POP, CALL or RET, no register operand to DIV, MOD, SHL, SHR, LOAD or STORE and no division by immediate -1 never sets an error or traps; each state it reaches is halted or can step |
| Safety.ForwardTerminates | src/vm.c:140-380 | A program whose jumps and calls all go forward and that has no RET is over after at most one step per instruction and the final failing fetch |
| Safety.FailedStep | src/vm.c:140-380 | Errors are almost atomic: a failing step leaves everything as it was except that ip has advanced (not even that for IP_OUT_OF_BOUNDS), and RET to a bad target has already popped its word; the nine errors listed are the only ones |
| Safety.TrapCause | asm/vm_linux_x86_64.asm:350-404 | A step traps if and only if it is DIV or MOD with valid registers, dividend INT64_MIN and divisor -1 |
| Stack.StackRefinement | src/vm.c:104-126 | Over any run whose stores stay below the stack or hit whole words of it, the words of memory from sp up are at every moment the abstract stack that PUSH and CALL extend, POP and RET shrink and such a STORE updates in one place; a POP or RET delivers its top |
| Stack.CallReturn | src/vm.c:285-294 | After a successful CALL and any number of steps that keep sp at or below the return address and store nothing at or above it, a RET at that sp lands just after the CALL with the caller's sp and the memory from the return address up as the CALL left it; a CALL in the last instruction has nowhere to return to and the RET reports BAD_JUMP |
| Stack.StackLimits | src/vm.c:104-126 | PUSH and CALL overflow exactly at 8192 words; POP and RET underflow exactly at none |
| Stack.AlignedRun | src/vm.c:16-23 | In every reachable state sp is a multiple of 8 between 0 and 65536 |
| Assembler.AssembleSource | src/assembler.c:395-554 | For every source text the single pass with backpatching accepts what the two-pass reference (collect labels, then emit with all targets known) accepts, and yields the same program |
| Assembler.PatchIsEmit | src/assembler.c:377-393 | The heart of it: patching the code emitted with open targets, in the order the references were recorded, equals emitting with the label table at hand, for any label table |
| Labels.KeyedMeaning | src/assembler.c:181-226 | Any source at all, in terms of names cut to 63 characters: accepted exactly when no line is an error, no label reads in full like an earlier one cut short, and every branch finds a label; each branch then goes to the number of instructions before the first label kept under its cut name |
| Labels.SourceMeaning | src/assembler.c:395-554 | With names of at most 63 characters that is the textbook reading: no line in error, no label defined twice, every branch bound; and each branch's immediate is the number of instructions before its label |
| Labels.ClashIsRepetition | src/assembler.c:191-209 | Where labels depart from that reading, exactly: a later label is reported as a duplicate of an earlier one if and only if it is one, unless the earlier name has over 63 characters and the later repeats all of it (missed) or its first 63 (reported) |
| Labels.LookupIsByName | src/assembler.c:377-393 | Where branches do, exactly: the label a branch reaches is the first one of its name if and only if the first label sharing the first 63 characters of the reference bears that name |
| Labels.WholeNameMeaning | src/assembler.c:395-554 | A source in which neither happens has the textbook reading, however long its names |
| Labels.UndefinedReported | src/assembler.c:377-393 | So a branch to a label that nobody defines is reported if and only if the one label there is differs from it in the first 63 characters; else it is assembled as a branch to that one |
| Labels.AssembledIsStructural | src/assembler.c:263-393 | Every accepted source yields reserved field 0, opcodes 1 to 41, registers 0 to 7, unused fields 0 and branch targets in 0..count |
| Labels.AssembledFaults | src/verifier.c:65-172 | So the verifier can reject assembled code only with BAD_JUMP, DIV_ZERO, MEMORY_OOB or BAD_SHIFT, and with BAD_JUMP exactly for a branch to a label after the last instruction |
| Symbolic.AssemblerImage | src/assembler.c:395-554 | The programs some source assembles to are exactly the structurally sound ones (every program that fits the address space) |
| SourceForms.StructuralInNumbers | src/assembler.c:253-375 | Those are, in numbers: opcode 1 to 41, registers 0 to 7, reserved and unused fields 0, targets 0..count |
| SourceForms.OperandRead | src/assembler.c:263-354 | What a mnemonic, a register and an operand assemble to, by opcode number: the record of that number for a number, of the next for a register, an error if either word is something else; a memory operand goes between brackets with room for 63 characters, and comes first in `store` |
| SourceForms.OperandMeaning | src/assembler.c:115-168 | An operand is a register r0 to r7, or a number in any notation of C that fits 64 bits, or an error |
| Text.NumeralMeaning | src/assembler.c:126-138 | A token is read as the number v if and only if it is spaces, a sign or none, and then 0x or 0X with hexadecimal digits, 0 with octal, or decimal digits, in either case of letters and with any leading zeros, that spell v |
| SourceForms.BranchWritten | src/assembler.c:476-496 | jmp, call, je and jne with a label, jz and jnz with a register and a label, give the records 11, 22, 26, 27, 12 and 13 with that label open, and are errors if the word is no identifier |
| Disassembler.InstructionRoundTrip | src/disassembler.c:7-102 | The text of a canonical instruction, any 64-bit immediate included, assembles to that instruction if it is not a branch; a branch never does, since a number is not a label |
| Disassembler.TextInjective | src/disassembler.c:7-102 | No two canonical instructions, branches included, print alike |
| Disassembler.ProgramRoundTrip | src/disassembler.c:104-115 | The whole listing with its index column cut off assembles to the program it lists if it has no branch and is rejected if it has one |
| SourceForms.TextIsWritten | src/disassembler.c:12-101 | The text of every record, letter by letter: the mnemonic of its opcode number, registers and decimal immediates in their places, or the two hexadecimal digits of an unknown opcode |
| Bytecode.ReadWritten | src/bytecode.c:244-342 | Reading the bytes written for a valid program returns that program and its header |
| Bytecode.Acceptance | src/bytecode.c:215-342 | With memory available a byte string is accepted if and only if its header matches, its length is 32 + 12 * code_count and every record validates |
| FileLayout.ImageInBytes | src/bytecode.c:203-281 | The file written for a program is, byte by byte and in numbers: 57 41 49 30 05 00 20 00 0C 00 08 00, four zeros, the count with its k-th byte at 16 + k, eight zeros, and for record i at 32 + 12i its opcode, a, b, c and the k-th byte of its immediate at 32 + 12i + 4 + k; no other file is |
| FileLayout.ReadingInBytes | src/bytecode.c:215-342 | A byte string is read as a program if and only if it is laid out so for that program, with any flags, the program verifies and its count is at most (2^64 - 1) / 12; version, sizes, flags and count are handed on |
| FileLayout.RefusalsInBytes | src/bytecode.c:215-342 | Every other byte string is refused, in this order: bytes 0 to 11 or 24 to 31 (PARSE), a count beyond the address space or no memory (OOM), a length that is not 32 + 12 * count (PARSE), the first wrong record (its error) |
| Bytecode.RewriteAccepted | src/bytecode.c:203-342 | Writing back what was read restores the file byte for byte, except that bytes 12 to 15 become zero |
| Bytecode.RewriteIdentity | src/bytecode.c:203-342 | The rewrite is the identity if and only if the flags were zero |
| Bytecode.NonzeroFlagsAccepted | docs/bytecode-format.md:22 | The document fixes flags at 0; the reader accepts a file whose flags are 1, and rewriting changes it |
| Bytecode.BothCheckers | src/bytecode.c:161-201 | The loader's validator and the verifier return on every program the error of its first wrong instruction, OK if and only if there is none, and the reported ip is the index of that instruction |
| Trace.TraceProgram | src/trace.c:21-75 | The tracer always ends; its verdict is OK exactly if the run halts within 1_000_000 steps, UNSUPPORTED exactly if it is still going after 1_000_000, otherwise the run's error; its step and print counts are those of the run. C need only define the million steps, not what might follow |
| TraceLimit.TraceCountdown | include/wai/trace.h:12 | Both sides of the limit: `mov r0, k; sub r0, 1; jnz r0, 1; halt`, which halts with step 2k + 2, is traced to OK for k up to 499_999 and to UNSUPPORTED beyond; with a `nop` before the `halt` k = 499_999 needs step 1_000_001 and is UNSUPPORTED |
| TraceLimit.TraceFibonacci | src/trace.c:21-75 | For every count u whose 7u + 6 steps C defines the trace of examples/fib.wai returns OK after 7u + 6 steps and one print |
| TraceLimit.FibonacciVerdict | src/trace.c:33-37 | As far as the limit goes, examples/fib.wai is traced to OK for the counts up to 142_856 and cut off for all others |
| Fibonacci.FibonacciDefined | examples/fib.wai:3-18 | C defines the run of the example, however far it is followed, if and only if the Fibonacci number after the one it prints is below 2^63 |
| Trace.CounterIsCutOff | src/trace.c:33-37 | For one the endless counter loop, which overflows after 2^63 rounds, is covered, and traced to UNSUPPORTED |
| Trace.VerdictIsFinal | src/trace.c:32-74 | A trace that is not cut off tells what any engine tells that executes the run to its end |
| Trace.VerdictMeaning | src/trace.c:32-74 | OK says that the run halts within 1_000_000 steps, UNSUPPORTED that it is still going after 1_000_000 |
| Trace.ForwardNeverUnsupported | include/wai/trace.h:12 | A forward-only program of fewer than 1_000_000 instructions is never cut off, whatever else may happen to it |
| Debugger.RunDebugger | src/debugger.c:172-273 | For any input lines, as far as C defines the steps this session takes, the command loop ends in the state and with the result that the session function gives; without code it returns OK on the very error it reports |
| Debugger.DebuggerFollowsRun | src/debugger.c:172-273 | After any sequence of lines the machine is exactly as many steps along the one run from power-on as the session counts, and an error or fault it ends on is the run's |
| Commands.ContinueLine | src/debugger.c:232-247 | Typed at any prompt, `continue` or `c` goes to the first point of the run from there, that one included, that has halted, stands on a breakpoint or fails its next step, and takes that failing step |
| Commands.BreakLine | src/debugger.c:248-255 | `break` or `b` adds the index its argument spells, in any notation of C, to the breakpoints, and nothing if that is no instruction index |
| Commands.ClearLine | src/debugger.c:256-263 | `clear` takes it out |
| Commands.StepLine | src/debugger.c:222-231 | `step` or `s` takes one step of the run, or none after HALT |
| Debugger.ContinueStopsFirst | src/debugger.c:232-247 | `continue` stops at a state if and only if that is the first, the current one included, that is halted, has a breakpoint at ip or fails its next step |
| Debugger.ResumeFinds | src/debugger.c:232-247 | Conversely a state at which `continue` must stop is found, however far along the run |
| Debugger.NoProgressOnBreakpoint | src/debugger.c:233-237 | Hence `continue` repeated on a breakpoint makes no progress |
| Fibonacci.FibonacciProgram | examples/fib.wai:3-18 | With any 64-bit initial count, read unsigned as u, the example prints the u-th Fibonacci number reduced to 64 bits, once, and halts after exactly 7u + 6 steps, not one earlier |
| EndToEnd.SourceAssembles | examples/fib.wai:1-18 | The text of the example, comments, blank lines and indentation included and its count replaced by any 64-bit number, assembles to that program |
| EndToEnd.AssembleAndRun | examples/fib.wai:1-18 | Text in, number out: the text assembles to the code of the machine, the NASM engine leaves it in the state that 7u + 6 steps of the run give, and that is halted, without error, that Fibonacci number its only output |
| Isa.DecodeEncode | include/wai/instruction.h:13-56 | The families number the opcodes 1 to 41: each family has a number that decodes to it |
| Isa.EncodeDecode | include/wai/instruction.h:13-58 | and each byte from 1 to 41, and no other, is the number of exactly one family |
| Words.TruncDivMod | src/vm.c:201-226 | Quotient and remainder satisfy a = (a/b)*b + a%b with the remainder smaller than the divisor and on the dividend's side |
| Words.TruncDivFits | src/vm.c:201-226 | The quotient of two 64-bit values leaves the range exactly for INT64_MIN / -1; the remainder never does |
| Words.BitIsDigit | src/vm.c:317-346 | Bit k of a word is its k-th digit in base 2 |
| Words.BitwiseAtBit | src/vm.c:317-346 | At every bit position AND is the product, OR the sum less the product, XOR the sum modulo 2 |
| Words.BitwiseSums | src/vm.c:317-346 | Whole words: AND + OR = x + y, and XOR + 2 * AND = x + y |
| Words.NotIsNegation | src/vm.c:347-351 | NOT, read signed, is -x - 1 |
| Words.Shl64IsProduct | src/vm.c:352-363 | A left shift is multiplication by a power of two modulo 2^64 |
| Words.Shr64IsQuotient | src/vm.c:364-375 | A right shift is the unsigned quotient by a power of two |
| Words.AppendByte | src/vm.c:81-84 | OR-ing byte i shifted into place puts it on top of the bytes below it |
| Words.ExtractByte | src/vm.c:97-100 | Shifting right by 8i and masking gives byte i of the word |
| Words.WordRoundTrip | src/vm.c:73-102 | The eight bytes of a word give the word back, whatever its sign |
| Words.WordBytesRoundTrip | src/vm.c:73-102 | and any eight bytes are the bytes of the word they spell |
| Machine.LoadStored | src/vm.c:73-102 | A stored word reads back, whatever its value and address |
| Machine.StoreFrame | src/vm.c:89-102 | A store changes no byte outside its eight |
| Machine.LoadFrame | src/vm.c:73-102 | nor any word at distance 8 or more |
| InstructionSet.PowerOn | src/vm.c:16-23 | The state at power-on, number by number |
| InstructionSet.RunIsPath | src/vm.c:140-380 | n steps lead from s to t if and only if there is a path of n single steps from s to t |
| InstructionSet.RefusedStep | src/vm.c:144-149 | A halted machine stays as it is; an ip past the code is IP_OUT_OF_BOUNDS, opcode 0 or above 41 BAD_OPCODE, a register above 7 that the opcode uses BAD_REGISTER |
| InstructionSet.MoveStep | src/vm.c:161-170 | MOV (1, 2) leaves its operand in register a and tells the flag whether it is zero |
| InstructionSet.CompareStep | src/vm.c:295-302 | CMP (24, 25) moves only ip and the flag, which is equality |
| InstructionSet.JumpStep | src/vm.c:227-230 | JMP (11) lands on its immediate if that is 0..count-1 |
| InstructionSet.JumpOnFlagStep | src/vm.c:303-314 | JE (26) jumps on a set flag, JNE (27) on a clear one |
| InstructionSet.PrintStep | src/vm.c:245-248 | PRINT (14) appends the register to the output |
| InstructionSet.HaltStep | src/vm.c:249-251 | HALT (15) moves ip on and halts |
| InstructionSet.NopStep | src/vm.c:315-316 | NOP (28) moves only ip |
| InstructionSet.PushStep | src/vm.c:276-278 | PUSH (20) puts the bytes of the register below sp, or overflows with less than 8 bytes there |
| InstructionSet.PopStep | src/vm.c:279-284 | POP (21) leaves the word at sp in the register, or underflows above 65528 |
| InstructionSet.FragmentsInNumbers | src/vm.c:140-380 | Which programs count as closed, error-free and forward-only, by opcode number |
| Machine.RunSplit | src/vm.c:140-380 | Running m + n steps is running m steps and then n |
| Machine.RunOver | src/vm.c:144-149 | A run that has halted, failed or trapped stays where it is, so its end is unique |
| Machine.DefinedRunNeverTraps | src/vm.c:171-226 | Nor does a whole run whose steps are defined |
| Machine.DefinedNeverTraps | src/vm.c:201-226 | Where C arithmetic is defined the processor does not trap either |
| CVm.Vm.Init | src/vm.c:16-23 | Power-on: registers and memory zero, ip 0, sp 65536, no error |
| CVm.Vm.EmitPrint | src/vm.c:29-35 | One value is appended to the output; last_print follows it and print_count counts it modulo 2^64 |
| CVm.Vm.LoadI64 | src/vm.c:73-87 | The byte loop yields the little-endian word at any address up to 65528 and refuses the rest |
| CVm.Vm.StoreI64 | src/vm.c:89-102 | The byte loop replaces exactly that word, or touches nothing |
| CVm.Vm.CheckJump | src/vm.c:46-51 | Targets 0..count-1 pass; any other, negative ones included, records BAD_JUMP |
| CVm.Vm.CheckShift | src/vm.c:132-138 | Counts 0..63 pass; any other records BAD_SHIFT |
| CVm.Vm.LoadChecked | src/vm.c:60-87 | A signed address is refused if negative or above 65528, else the word is loaded |
| CVm.Vm.StoreChecked | src/vm.c:60-102 | The same for stores, memory untouched on refusal |
| CVm.Vm.PushI64 | src/vm.c:104-114 | Eight bytes below sp take the word, or overflow with nothing moved |
| CVm.Vm.PopI64 | src/vm.c:116-126 | The word at sp is delivered and sp rises, or underflow with nothing moved |
| CVm.Vm.Operands | src/vm.c:161-226 | Both register checks precede any use of an operand |
| CVm.Vm.StepArithmetic | src/vm.c:161-200 | MOV, ADD, SUB, MUL: where the signed result is representable, the shared outcome |
| CVm.Vm.StepDivision | src/vm.c:201-226 | DIV, MOD: zero divisor checked after the registers, quotient truncating toward zero |
| CVm.Vm.StepJump | src/vm.c:227-230 | JMP, JE, JNE: the target is checked only when the jump is taken |
| CVm.Vm.StepJumpOnRegister | src/vm.c:231-244 | JZ, JNZ: register first, target only when taken |
| CVm.Vm.StepLoad | src/vm.c:252-265 | LOAD by address or by register, registers before address |
| CVm.Vm.StepStore | src/vm.c:266-275 | STORE likewise; the flag stays |
| CVm.Vm.StepPush | src/vm.c:276-278 | PUSH; the flag stays |
| CVm.Vm.StepPop | src/vm.c:279-284 | POP sets the flag |
| CVm.Vm.StepCall | src/vm.c:285-289 | CALL checks its target before it pushes the index of the next instruction |
| CVm.Vm.StepRet | src/vm.c:290-294 | RET pops before it checks, so a bad target leaves sp raised |
| CVm.Vm.StepOther | src/vm.c:245-316 | PRINT, HALT, CMP, NOP; HALT leaves the error field alone |
| CVm.Vm.StepBitwise | src/vm.c:317-346 | AND, OR, XOR on the unsigned reading |
| CVm.Vm.StepNot | src/vm.c:347-351 | NOT on the unsigned reading |
| CVm.Vm.StepShift | src/vm.c:352-375 | SHL, SHR on the unsigned reading, count checked first |
| CVm.Vm.Switch | src/vm.c:160-379 | Every opcode byte, the unknown ones included, goes to its case |
| CVm.Vm.Step | src/vm.c:140-380 | One step is one step of the shared semantics, its error recorded and returned; with a null code pointer nothing moves, not even the error field |
| Nasm.AddWraps | asm/vm_linux_x86_64.asm:288-307 | The processor's unsigned 64-bit add, read signed, wraps the exact sum |
| Nasm.SubWraps | asm/vm_linux_x86_64.asm:309-328 | The same for sub |
| Nasm.CqoIdiv | asm/vm_linux_x86_64.asm:356-358 | cqo and idiv give the truncated quotient and remainder of the signed operands, or fault when the quotient does not fit |
| Nasm.RecordAddress | asm/vm_linux_x86_64.asm:102-108 | lea and shl reach code + 12 * ip without wrap-around for any code array in the address space |
| Nasm.LowByte | asm/vm_linux_x86_64.asm:616 | Writing bl into cl leaves the six bits that a shift uses equal to the checked count |
| Nasm.Cpu.constructor | asm/vm_linux_x86_64.asm:82 | The caller's side of the call: rdi is the VM, the return address is on the stack, rsp is 8 modulo 16 |
| Nasm.Cpu.Ret | asm/vm_linux_x86_64.asm:203 | A return is only ever executed with the address of its own call site on top, and drops just that |
| Nasm.Cpu.FailInHelper | asm/vm_linux_x86_64.asm:667-693 | An error label reached inside a helper drops exactly the helper's return address |
| Nasm.Cpu.LoadRegAIndex | asm/vm_linux_x86_64.asm:210-214 | Index a if below 8, else BAD_REGISTER; host stack balanced either way |
| Nasm.Cpu.LoadRegBIndex | asm/vm_linux_x86_64.asm:216-220 | The same for b |
| Nasm.Cpu.SetZfFromRax | asm/vm_linux_x86_64.asm:205-208 | The zero flag says whether rax is zero; balanced |
| Nasm.Cpu.CheckJumpImm | asm/vm_linux_x86_64.asm:222-229 | The sign test and the unsigned comparison together accept exactly 0..count-1 |
| Nasm.Cpu.CheckJumpRax | asm/vm_linux_x86_64.asm:231-235 | The unsigned comparison alone accepts the same targets, negatives being huge |
| Nasm.Cpu.CheckMemAddrRbx | asm/vm_linux_x86_64.asm:237-242 | Exactly the addresses 0..65528 |
| Nasm.Cpu.CheckShiftRbx | asm/vm_linux_x86_64.asm:244-249 | Exactly the counts 0..63 |
| Nasm.Cpu.LoadCount | asm/vm_linux_x86_64.asm:615-616 | After the check the shift count in cl is the operand |
| Nasm.Cpu.LoadShiftImm | asm/vm_linux_x86_64.asm:612-616 | What the two shifts by immediate open with: both checks in order, the count in cl |
| Nasm.Cpu.LoadShiftReg | asm/vm_linux_x86_64.asm:624-629 | and the two by register |
| Nasm.Cpu.LoadAddressImm | asm/vm_linux_x86_64.asm:442-445 | What load and store by address open with: register, then address |
| Nasm.Cpu.LoadAddressReg | asm/vm_linux_x86_64.asm:452-456 | and through a register |
| Nasm.Cpu.ReadWord | asm/vm_linux_x86_64.asm:446 | A quadword load is the little-endian word the C byte loop reads |
| Nasm.Cpu.WriteWord | asm/vm_linux_x86_64.asm:468 | A quadword store is the one the C byte loop makes |
| Nasm.Cpu.PushRax | asm/vm_linux_x86_64.asm:251-258 | The shared push; overflow leaves sp and memory alone and drops the return address |
| Nasm.Cpu.PopRax | asm/vm_linux_x86_64.asm:260-267 | The shared pop; underflow likewise |
| Nasm.Cpu.PushIp | asm/vm_linux_x86_64.asm:498-499 | The index pushed by a call is the one after it |
| Nasm.Cpu.DivideImm | asm/vm_linux_x86_64.asm:351-358 | Div and mod by immediate up to their result, register check first |
| Nasm.Cpu.DivideReg | asm/vm_linux_x86_64.asm:364-372 | and by register |
| Nasm.Cpu.CallAligned | asm/vm_linux_x86_64.asm:431-433 | The padding that aligns the call is taken back after it |
| Nasm.Cpu.Divide | asm/vm_linux_x86_64.asm:353-358 | Zero divisor, fault, or quotient in rax and remainder in rdx, for all operands |
| Nasm.Cpu.OpMovImm | asm/vm_linux_x86_64.asm:270-276 | mov by immediate: lands where the shared semantics says, error recorded, host stack, rsp, rbp and r12 as found |
| Nasm.Cpu.OpMovReg | asm/vm_linux_x86_64.asm:278-286 | mov by register: lands where the shared semantics says, error recorded, host stack, rsp, rbp and r12 as found |
| Nasm.Cpu.OpAddImm | asm/vm_linux_x86_64.asm:288-296 | add by immediate, wrapping: lands where the shared semantics says, error recorded, host stack, rsp, rbp and r12 as found |
| Nasm.Cpu.OpAddReg | asm/vm_linux_x86_64.asm:298-307 | add by register, wrapping: lands where the shared semantics says, error recorded, host stack, rsp, rbp and r12 as found |
| Nasm.Cpu.OpSubImm | asm/vm_linux_x86_64.asm:309-317 | sub by immediate, wrapping: lands where the shared semantics says, error recorded, host stack, rsp, rbp and r12 as found |
| Nasm.Cpu.OpSubReg | asm/vm_linux_x86_64.asm:319-328 | sub by register, wrapping: lands where the shared semantics says, error recorded, host stack, rsp, rbp and r12 as found |
| Nasm.Cpu.OpMulImm | asm/vm_linux_x86_64.asm:330-337 | mul by immediate, wrapping: lands where the shared semantics says, error recorded, host stack, rsp, rbp and r12 as found |
| Nasm.Cpu.OpMulReg | asm/vm_linux_x86_64.asm:339-348 | mul by register, wrapping: lands where the shared semantics says, error recorded, host stack, rsp, rbp and r12 as found |
| Nasm.Cpu.OpDivImm | asm/vm_linux_x86_64.asm:350-361 | div by immediate; a direct error label drops nothing: lands where the shared semantics says, error recorded, host stack, rsp, rbp and r12 as found |
| Nasm.Cpu.OpDivReg | asm/vm_linux_x86_64.asm:363-375 | div by register: lands where the shared semantics says, error recorded, host stack, rsp, rbp and r12 as found |
| Nasm.Cpu.OpModImm | asm/vm_linux_x86_64.asm:377-389 | mod by immediate: lands where the shared semantics says, error recorded, host stack, rsp, rbp and r12 as found |
| Nasm.Cpu.OpModReg | asm/vm_linux_x86_64.asm:391-404 | mod by register: lands where the shared semantics says, error recorded, host stack, rsp, rbp and r12 as found |
| Nasm.Cpu.OpJmp | asm/vm_linux_x86_64.asm:406-409 | jmp: lands where the shared semantics says, error recorded, host stack, rsp, rbp and r12 as found |
| Nasm.Cpu.OpJz | asm/vm_linux_x86_64.asm:411-417 | jz, target unchecked when not taken: lands where the shared semantics says, error recorded, host stack, rsp, rbp and r12 as found |
| Nasm.Cpu.OpJnz | asm/vm_linux_x86_64.asm:419-425 | jnz, target unchecked when not taken: lands where the shared semantics says, error recorded, host stack, rsp, rbp and r12 as found |
| Nasm.Cpu.OpPrint | asm/vm_linux_x86_64.asm:427-434 | print, calling out on a stack aligned to 16 bytes: lands where the shared semantics says, error recorded, host stack, rsp, rbp and r12 as found |
| Nasm.Cpu.OpHalt | asm/vm_linux_x86_64.asm:436-439 | halt, which also clears the error field: lands where the shared semantics says, error recorded, host stack, rsp, rbp and r12 as found |
| Nasm.Cpu.OpLoadAbs | asm/vm_linux_x86_64.asm:441-449 | load from an address: lands where the shared semantics says, error recorded, host stack, rsp, rbp and r12 as found |
| Nasm.Cpu.OpLoadReg | asm/vm_linux_x86_64.asm:451-460 | load through a register: lands where the shared semantics says, error recorded, host stack, rsp, rbp and r12 as found |
| Nasm.Cpu.OpStoreAbs | asm/vm_linux_x86_64.asm:462-469 | store to an address: lands where the shared semantics says, error recorded, host stack, rsp, rbp and r12 as found |
| Nasm.Cpu.OpStoreReg | asm/vm_linux_x86_64.asm:471-479 | store through a register: lands where the shared semantics says, error recorded, host stack, rsp, rbp and r12 as found |
| Nasm.Cpu.OpPush | asm/vm_linux_x86_64.asm:481-485 | push: lands where the shared semantics says, error recorded, host stack, rsp, rbp and r12 as found |
| Nasm.Cpu.OpPop | asm/vm_linux_x86_64.asm:487-493 | pop: lands where the shared semantics says, error recorded, host stack, rsp, rbp and r12 as found |
| Nasm.Cpu.OpCall | asm/vm_linux_x86_64.asm:495-501 | call, target checked before the push: lands where the shared semantics says, error recorded, host stack, rsp, rbp and r12 as found |
| Nasm.Cpu.OpRet | asm/vm_linux_x86_64.asm:503-507 | ret, popped before the check: lands where the shared semantics says, error recorded, host stack, rsp, rbp and r12 as found |
| Nasm.Cpu.OpCmpImm | asm/vm_linux_x86_64.asm:509-514 | cmp with an immediate: equality of raw words is equality of values: lands where the shared semantics says, error recorded, host stack, rsp, rbp and r12 as found |
| Nasm.Cpu.OpCmpReg | asm/vm_linux_x86_64.asm:516-523 | cmp of registers: lands where the shared semantics says, error recorded, host stack, rsp, rbp and r12 as found |
| Nasm.Cpu.OpJe | asm/vm_linux_x86_64.asm:525-530 | je: lands where the shared semantics says, error recorded, host stack, rsp, rbp and r12 as found |
| Nasm.Cpu.OpJne | asm/vm_linux_x86_64.asm:532-537 | jne: lands where the shared semantics says, error recorded, host stack, rsp, rbp and r12 as found |
| Nasm.Cpu.OpNop | asm/vm_linux_x86_64.asm:539-540 | nop: lands where the shared semantics says, error recorded, host stack, rsp, rbp and r12 as found |
| Nasm.Cpu.OpBitsImm | asm/vm_linux_x86_64.asm:542-600 | and, or, xor by immediate: lands where the shared semantics says, error recorded, host stack, rsp, rbp and r12 as found |
| Nasm.Cpu.OpBitsReg | asm/vm_linux_x86_64.asm:551-600 | and, or, xor by register: lands where the shared semantics says, error recorded, host stack, rsp, rbp and r12 as found |
| Nasm.Cpu.OpNot | asm/vm_linux_x86_64.asm:602-609 | not: lands where the shared semantics says, error recorded, host stack, rsp, rbp and r12 as found |
| Nasm.Cpu.OpShlImm | asm/vm_linux_x86_64.asm:611-621 | shl by immediate: lands where the shared semantics says, error recorded, host stack, rsp, rbp and r12 as found |
| Nasm.Cpu.OpShlReg | asm/vm_linux_x86_64.asm:623-634 | shl by register: lands where the shared semantics says, error recorded, host stack, rsp, rbp and r12 as found |
| Nasm.Cpu.OpShrImm | asm/vm_linux_x86_64.asm:636-646 | shr by immediate, logical: lands where the shared semantics says, error recorded, host stack, rsp, rbp and r12 as found |
| Nasm.Cpu.OpShrReg | asm/vm_linux_x86_64.asm:648-659 | shr by register, logical: lands where the shared semantics says, error recorded, host stack, rsp, rbp and r12 as found |
| Nasm.Cpu.CallEmitPrint | asm/vm_linux_x86_64.asm:431-433 | Called only with rsp a multiple of 16; all caller-saved registers may be lost, the value in rsi is printed |
| Nasm.Cpu.DispatchOpcode | asm/vm_linux_x86_64.asm:115-197 | The comparison chain sends every opcode byte, unknown ones included, to its outcome |
| Nasm.Cpu.Fetch | asm/vm_linux_x86_64.asm:102-113 | The record fetched by address is instruction ip of the program, and ip advances |
| Nasm.Cpu.Iterate | asm/vm_linux_x86_64.asm:93-197 | One turn of the loop from any state is one step of the shared semantics and leaves the host stack as it was; an already halted machine is left alone |
| Nasm.Cpu.Loop | asm/vm_linux_x86_64.asm:93-197 | The loop leaves at the end of the run, with the host stack as it entered and any error pending on entry kept until HALT or a failure |
| Nasm.Cpu.Enter | asm/vm_linux_x86_64.asm:82-91 | Six registers saved in order; the loop starts 48 bytes below the return address |
| Nasm.Cpu.Leave | asm/vm_linux_x86_64.asm:702-709 | The six pops give each register its own value back |
| Safety.RejectedStep | src/vm.c:140-380 | A rejected instruction fails with the verifier's error on every state that reaches it |
| Safety.VerifiedStep | src/verifier.c:65-172 | An instruction that passed the verifier raises, on any state whatever, only the errors its family still can |
| Safety.StepTarget | src/vm.c:140-380 | Where one successful step can take ip, by family |
| Safety.StaysInCode | src/vm.c:147-149 | A closed verified program never steps outside its code |
| Safety.HarmlessStep | src/vm.c:140-380 | An error-free instruction succeeds on every state |
| Safety.ForwardProgress | src/vm.c:140-380 | Each step of a forward-only run that is still going has moved ip at least one further |
| Stack.StackStep | src/vm.c:266-294 | One step changes the stack as its instruction says and no other way, unless a STORE straddles its words; POP and RET deliver the top |
| Stack.StoreBelow | src/vm.c:266-275 | A store ending at or below sp leaves the stack alone |
| Stack.StoreInside | src/vm.c:266-275 | An aligned store inside the stack replaces exactly one of its words |
| Stack.FloorKeptRun | src/vm.c:104-126 | Over any run that keeps sp and its stores below a floor, memory from the floor up does not change |
| Verifier.VerifyInstructionIsStatic | src/verifier.c:67-171 | The two switches over numbers decide what the reading by families decides, with the same error, though they are ordered differently |
| Verifier.FirstErrorMeaning | src/verifier.c:65-172 | No error exactly if every instruction is individually right; otherwise the error of the least wrong index |
| Verifier.VerifyProgram | src/verifier.c:53-176 | OK exactly on verified programs; otherwise the error and ip of the first wrong instruction |
| Bytecode.ValidatorsAgree | src/bytecode.c:105-199 | Two switches written independently, one grouped by check and one by opcode, give each record the same verdict |
| Bytecode.ValidateProgram | src/bytecode.c:161-201 | OK exactly on verified programs, otherwise the first wrong record's error |
| Bytecode.WriteLe | src/bytecode.c:50-66 | The shift-and-mask loop writes the little-endian bytes and nothing else |
| Bytecode.EncodeHeader | src/bytecode.c:203-213 | The 32 header bytes of a program of that length |
| Bytecode.EncodeInstruction | src/bytecode.c:87-93 | The 12 record bytes |
| Bytecode.WriteFile | src/bytecode.c:244-281 | A valid program becomes header and records in order; an invalid one is refused with its first error and nothing is written |
| Bytecode.ReadLe | src/bytecode.c:68-85 | The shift-and-or loop reads the little-endian value |
| Bytecode.DecodeHeader | src/bytecode.c:215-242 | Wrong fields are a parse error, an unaddressable count is out of memory, flags are not looked at |
| Bytecode.DecodeInstruction | src/bytecode.c:95-103 | The record the twelve bytes spell |
| Bytecode.ReadRecords | src/bytecode.c:316-324 | All records in order, or failure exactly if the file is too short for them |
| Bytecode.ReadFile | src/bytecode.c:283-342 | The outcome in the order the reader checks: header, allocation, length (short or trailing), validation |
| Bytecode.RecordRoundTrip | src/bytecode.c:87-103 | A record survives encoding, any immediate included |
| Bytecode.RecordBytesRoundTrip | src/bytecode.c:87-103 | and any twelve bytes survive decoding |
| Bytecode.CodeRoundTrip | src/bytecode.c:268-324 | Whole code survives writing and reading |
| Bytecode.CodeBytesRoundTrip | src/bytecode.c:268-324 | and whole record areas survive reading and writing |
| FileLayout.HeaderInBytes | docs/bytecode-format.md:15-24 | The header check looks at bytes 0 to 11 and 24 to 31 and wants just those of the table |
| FileLayout.RecordInBytes | docs/bytecode-format.md:32-38 | A record is opcode, a, b, c and the immediate in these places |
| Bytecode.HeaderRoundTrip | src/bytecode.c:203-242 | Header fields of any values in range are read back |
| Bytecode.HeaderBytesRoundTrip | src/bytecode.c:203-242 | and any header with the magic is the header of its fields |
| ProgramBuffer.Doubling | src/bytecode.c:29-36 | A program pushed one instruction at a time from nothing can grow exactly below 2^60 instructions |
| ProgramBuffer.Program.constructor | src/bytecode.c:9-13 | An empty program |
| ProgramBuffer.Program.Loaded | src/bytecode.c:305-324 | A program as large as its code, as the reader leaves it |
| ProgramBuffer.Program.Push | src/bytecode.c:25-48 | At any capacity the instruction is appended, across reallocation too; it fails exactly when the array is full and memory or the overflow guards keep it from doubling, and then changes nothing |
| Text.TrimText | src/assembler.c:83-96 | The two loops cut exactly the spaces at either end |
| Text.Tokenize | src/assembler.c:228-251 | All maximal runs of non-separators in order, or failure exactly when there are more than the limit |
| Text.FirstToken | src/assembler.c:228-251 | A word followed by a separator or nothing is one token |
| Text.ParsePrinted | src/assembler.c:126-138 | Every 64-bit number printed in decimal is read back, INT64_MIN included, though base 0 would read a leading zero as octal |
| Text.ParseNumeral | src/assembler.c:126-138 | A sign, a prefix and digits in either case are read in full if and only if the number fits 64 bits |
| Text.CharacterTables | src/assembler.c:83-113 | Which characters are spaces, digits, letters and separators of words and lines |
| Text.DecimalInjective | src/disassembler.c:15 | Distinct numbers print differently |
| Syntax.CheckIdentifier | src/assembler.c:98-113 | A letter or underscore, then letters, digits or underscores |
| Syntax.NameRoundTrip | src/assembler.c:455-519 | The chain of string comparisons tells the 27 mnemonics apart |
| Syntax.ParsedIsCanonical | src/assembler.c:263-375 | Whatever the parsers return has registers in range and unused fields zero, and refers to a label exactly if it is a branch |
| Syntax.LineIsCanonical | src/assembler.c:416-532 | So does every line of any source |
| Assembler.PendingIncreasing | src/assembler.c:211-226 | The pending references are as many as the branch lines, in strictly increasing order of existing instructions |
| Labels.PendingAreBranches | src/assembler.c:369-375 | The instructions with a reference pending are exactly the branches emitted; so each has exactly one |
| Labels.PendingOfSource | src/assembler.c:416-539 | That holds after any lines of any source |
| Assembler.LabelTable.LabelFind | src/assembler.c:181-189 | The first label kept under that name, or none |
| Assembler.LabelTable.LabelAdd | src/assembler.c:191-209 | Refuses a name it finds; otherwise keeps its first 63 characters |
| Assembler.LabelTable.PendingAdd | src/assembler.c:211-226 | Records the reference after all others |
| Assembler.LabelTable.ResolvePending | src/assembler.c:377-393 | Each recorded branch gets its target, or the first missing or too large one fails the whole |
| Assembler.ClassifyLine | src/assembler.c:418-452 | Comment, blank, label, instruction or error, for any raw line |
| Assembler.ReadLine | src/assembler.c:416-539 | One turn of the line loop keeps table, references and code those of the lines read so far |
| Assembler.RejectedPrefix | src/assembler.c:548-553 | A rejected line rejects whatever follows it, so leaving the loop early loses nothing |
| Labels.FindMeaning | src/assembler.c:181-209 | The table answers with the first label kept under a name, as the number of instructions before it |
| Labels.AcceptedMeaning | src/assembler.c:191-209 | The first pass rejects errors and clashes, exactly |
| Labels.EmitMeaning | src/assembler.c:377-393 | Emission succeeds exactly when every reference resolves, and puts each instruction at the number of instructions before it |
| Labels.DuplicateReported | src/assembler.c:191-209 | A label defined twice is reported if and only if its name has at most 63 characters |
| SourceForms.NamesKept | src/assembler.c:205-223 | The table takes two names for one if and only if they are equal or agree in their first 63 characters |
| SourceForms.MnemonicsOnly | src/assembler.c:455-519 | The mnemonics are those of the opcode numbers and no other word |
| SourceForms.WrongWords | src/assembler.c:455-530 | A line whose first word is no mnemonic, or whose words are not as many as its instruction has, is an error |
| SourceForms.RegisterRead | src/assembler.c:356-367 | print, push, pop and not with a register give the records 14, 20, 21 and 37, and with any other word an error |
| SourceForms.IdentifierMeaning | src/assembler.c:98-113 | An identifier is letters, digits and underscores that do not start with a digit, character code by character code |
| SourceForms.LabelWritten | src/assembler.c:427-446 | A word and a colon define that label if the word is an identifier, and are an error if not |
| SourceForms.RegisterNames | src/assembler.c:115-124 | The registers are the eight words r0 to r7 |
| SourceForms.MemoryMeaning | src/assembler.c:140-168 | Brackets hold at most 63 characters |
| Disassembler.TextIsJoined | src/disassembler.c:13-99 | The switch prints, for each opcode, its mnemonic and its operands in the order the assembler reads them |
| Disassembler.JoinedLine | src/assembler.c:416-452 | A printed line is split by the assembler into the words it was printed from |
| Disassembler.IndexReadsBack | src/disassembler.c:12 | The index column is at least four digits wide and spells the index |
| Disassembler.ListingSource | src/disassembler.c:104-115 | Cutting the column from each line of a listing leaves the instructions' own texts |
| Disassembler.DisassembleProgram | src/disassembler.c:104-115 | One line per instruction, in order |
| SourceForms.ListingGrows | src/disassembler.c:12-115 | Each instruction adds its index in four decimal digits or more, two spaces, its text and a newline |
| SourceForms.DecimalPrinted | src/disassembler.c:15 | A number is printed as a minus sign if it is negative and the digits of its magnitude without leading zeros |
| SourceForms.WrittenLine | src/assembler.c:253-375 | The text of a record that a source can spell reads back as that record; that of a branch does not |
| Symbolic.BranchLine | src/assembler.c:369-375 | A branch printed with a label in place of its number is read as that branch with the target open |
| Symbolic.NamedLabel | src/assembler.c:427-446 | An identifier and a colon define that label |
| Symbolic.SymbolicAssembles | src/assembler.c:395-554 | For each structurally sound program the source that labels every instruction assembles to it |
| Debugger.ReadCommand | src/debugger.c:194-266 | The command and argument that the line denotes |
| Debugger.CommandSplits | src/debugger.c:194-208 | A name, a space and an argument are read as just that |
| Commands.SaidLine | src/debugger.c:194-208 | A word, and an argument or none, with any spaces around them, are read as just that |
| Commands.WordsKnown | src/debugger.c:210-266 | The words that inspect are those six, and the unknown ones all but the fifteen words of the commands |
| Commands.IndexMeaning | src/debugger.c:61-72 | An argument is taken for an index if and only if it is a numeral for one, read as strtoull reads it |
| Commands.QuitLine | src/debugger.c:264-265 | `quit` or `q` ends the session with OK |
| Commands.OtherLine | src/debugger.c:210-221 | The six words that inspect, any unknown word and a blank line change nothing |
| Commands.BreakFromStart | src/debugger.c:248-263 | From the start `break i` breaks at i alone, and `clear i` takes it back |
| Debugger.IndexAccepted | src/debugger.c:61-72 | A printed index is accepted exactly if it is below the count, a negative one being read modulo 2^64 as strtoull does |
| Debugger.ResumeOnRun | src/debugger.c:232-247 | The pause found is on the run, and is the first |
| Debugger.ContinueRun | src/debugger.c:232-247 | The inner loop ends at that pause; if its step fails there, with the engine's error |
| Debugger.DoCommand | src/debugger.c:210-268 | Each command does to machine and breakpoints what the session function says; inspection, break and clear leave the machine alone |
| Debugger.DoOnRun | src/debugger.c:210-268 | No command leaves the run |
| Debugger.AfterPrefix | src/debugger.c:227-241 | What is typed after the session ended has no effect |
| EndToEnd.PaddedLine | src/assembler.c:418-426 | Indentation, trailing spaces and a comment do not change what a line means |
| Fibonacci.Turn | examples/fib.wai:7-14 | One turn of the loop is seven steps and one Fibonacci number |
| Fibonacci.Turns | examples/fib.wai:7-14 | After k turns the registers hold the count less k and two neighbouring Fibonacci numbers, reduced |
| TraceLimit.LimitVerdict | src/trace.c:33-37 | A run that halts with step n is traced to OK if n is at most 1_000_000, else to UNSUPPORTED |
| TraceLimit.TraceHalting | src/trace.c:32-74 | and its trace counts n steps, or 1_000_000 |
| TraceLimit.CountdownHalts | src/trace.c:32-74 | The countdown from k halts with step 2k + 2, or one later with the `nop`, and is defined in C |

## Left out

- Files, paths and their errors: the codec works on byte sequences, the assembler on strings, a session on its input lines.
- `src/cli.c`, `src/main.c`, everything under `tui/`, scripts and tests: argument routing, terminal handling and plumbing.
- Messages, error and opcode names, trace rows, register summaries, memory and stack dumps: of these the model keeps error codes, indices and counts, and that printing them does not change the machine.
- Null pointer arguments, and a program with a count but no code, which only a caller in C can make.
- Allocation failure in the assembler: its program, label and reference lists are sequences, as is the program the reader returns; the growing array with its failures is `ProgramBuffer.Program`, and failure of the reader's allocation is a parameter of `Bytecode.ReadFile`.
- Aliasing after reallocation: the old array of `ProgramBuffer.Program` simply stays unused.
- Line numbers in assembler errors; every rejection is the one parse error.
- Bytes of value 0 inside source text or command lines, which C would take for their end; a debugger line over 254 characters is the pieces `fgets` makes of it.
- CVm.Vm.EmitPrint: does not model the stream the text goes to, nor that without one nothing is written.
- CVm.Vm.Step: says nothing where the C arithmetic is undefined.
- Nasm.Cpu.ExecAsm: says nothing of a run that ends in the processor's divide fault, which ends the process.
- Text that is the same three times over: the NASM bodies of and, or and xor, which differ in one mnemonic, are one method per operand kind; C switch cases that differ in one operator share a method, with the same checks in the same order; the chain of 41 comparisons is cut into eight groups in its own order.
- Instruction encodings and processor flags other than the outcomes the code branches on; the label `.check_reg_al`, which nothing calls.
- `wai_bytecode_read_info` and the magic sniffing by path: subsets of the reader.
- Everything of the Fibonacci proof for the other example programs: they would add cases of the same kind.
