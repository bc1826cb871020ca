# CHIP-8 interpreter core in Dafny

A model of the interpreter engine of a CHIP-8 emulator, class
`CHIP8Interpreter` in `chip8/base.py`. It covers the machine state and its
construction, the copy of a program image to 0x200, the big-endian fetch, the
dispatch through `OPS_MAPPING` and the four family sub-dispatchers, every
instruction handler, and the timer tick. The proofs cover what the handlers
compute and the code paths they take.

The model follows the code as written, not an idealised CHIP-8:

- Registers, memory cells, `I`, the program counter and the timers are Python
  integers, modelled as `int`. Only the handlers that mask (`& 0xFF`) keep a
  value within a byte.
- SUB and SUBN store the plain difference, which can be negative.
- ADD I, Vx leaves `I` unmasked. Its flag tests `VF + Vx`, not `I + Vx`.
- JP V0, addr can move the counter past 0xFFF.
- LD [I], Vx and LD Vx, [I] copy V0 .. V(x-1), not V0 .. Vx, and then advance
  `I` by x + 1.
- The table has the single key 0x5000 for family 5, so every 5xyN word is
  SE Vx, Vy.
- In family 0 the second nibble is ignored: a low byte of 00 is SYS, E0 is
  CLS and EE is RET, whatever x is, and any other low byte is unknown.
- A word Ex00 or Fx00 re-enters its own sub-dispatcher forever.
- A memory index outside -4096..4095 and a RET on an empty stack raise Python
  errors. These are modelled as the faults `MemoryFault` and
  `StackUnderflow`. A negative index within range counts from the end of
  memory, as in a Python list.
- Python's `&`, `|` and `^` act on unbounded two's complement integers. Module
  `Bits` models them exactly, so masks of negative values agree with Python.

Where the docstrings describe the usual CHIP-8 behaviour, the model follows
the statements of the code: the class docstring and the comment on the
register list call the registers 8-bit, yet SUB and SUBN store unreduced,
possibly negative, differences; the Fx55 and Fx65 docstrings say "V0 through
Vx", yet the loops stop before Vx.

Modules, in dependency order:

- `bits.dfy` (`Bits`): Python's bitwise operators and masks.
- `state.dfy` (`State`): the machine, the font, the constructor, Python-style
  memory indexing, ranges read and written, and the loading of a program image.
- `decoder.dfy` (`Decoder`): the instruction datatype, the opcode fields,
  `Decode`, and the canonical `Encode`.
- `dispatch.dfy` (`Dispatch`): the table walk as the source performs it,
  proved to agree with `Decode`.
- `sprite.dfy` (`Sprite`): the sprite walk of DRW.
- `interpreter.dfy` (`Interpreter`): `Fetch`, `Execute` (one case per
  handler), `Step`, `Tick`, and one pass of the run loop, `Cycle`.
- `arith.dfy` (`Arithmetic`): the register handlers of families 7 and 8, and
  RND.
- `control.dfy` (`Control`): fetch, skips, CALL/RET, the jumps, the key wait,
  ADD I, and the unknown and diverging words.
- `memops.dfy` (`MemoryOps`): BCD, the register block copies, the font, DRW,
  CLS, and the display invariant.
- `timers.dfy` (`Timers`): repeated timer ticks.

The keys held down are given to `Step` as a sequence, in the order in which
iterating the frontend's key set visits them. The byte `random.randint` would
return is a parameter `rnd`.

## Model

| member | source | states |
|---|---|---|
| `State.Init` | chip8/base.py:83-113 | The constructed machine holds the font at 0..79 and zeros above it. All registers are 0, `I` is 0, the counter is 0x200, the stack is empty, the display is all 0s, both timers are 0, and `drawing` is false. |
| `State.Slot` | chip8/base.py:233-235 | A Python index in -4096..4095 denotes a cell below 4096 that is congruent to it modulo 4096. |
| `State.ReadRange` | chip8/base.py:582-583 | Reading n cells from a base succeeds exactly when every index base + k is in range. The k-th value is the cell that index denotes. |
| `State.WriteRange` | chip8/base.py:719-720 | Writing a run of values succeeds exactly when every index is in range. Each value lands in its cell, and no cell outside the range changes. |
| `State.ReadAfterWrite` | chip8/base.py:719-732 | Reading back a range just written returns exactly the values written. |
| `State.LoadRom` | chip8/base.py:186-193 | Byte k of the image goes to 0x200 + k, and nothing else in the machine changes. An image that does not fit below 4096 faults. |
| `Bits.Mask` | chip8/base.py:405-407 | Python's `a & (2**k - 1)` is `a mod 2**k`, for negative `a` too, and lies in 0 .. 2**k - 1. |
| `Bits.BitOpBit` | chip8/base.py:426-457 | Bit k of Python's `a \| b`, `a & b` and `a ^ b` is the or, and, exclusive or of bit k of `a` and `b`, at every position and for negative operands too. |
| `Decoder.DecodeEncode` | chip8/base.py:251-285 | The canonical word of every instruction the decoder can produce decodes back to that instruction. Decoding a canonical word always yields an instruction the decoder can produce. |
| `Decoder.FamilyFiveIgnoresLowNibble` | chip8/base.py:125 | Every word 5xyN decodes to SE Vx, Vy, whatever N is. |
| `Decoder.FamilyZeroRouting` | chip8/base.py:300-309 | A family 0 word is SYS exactly when its low byte is 0, with target x * 0x100. It is CLS exactly for low byte E0, RET exactly for EE, and unknown otherwise. |
| `Decoder.DivergingWords` | chip8/base.py:625-628 | Exactly the words of families E and F with a zero low byte diverge. |
| `Decoder.MaskFields` | chip8/base.py:158-166 | The source's masks and shifts of any integer opcode give the family, x, y, n, kk and nnn fields, including the two re-dispatch keys `op & 0xF0FF` and `op & 0xF00F`. |
| `Dispatch.SourceFields` | chip8/base.py:158-166 | The operand fields each handler computes from the opcode equal the decoder's fields. |
| `Dispatch.DispatchAgrees` | chip8/base.py:288-298 | For every word, the table walk through `OPS_MAPPING`, its default and the sub-dispatchers reaches the instruction `Decode` names, given one level of nesting. |
| `Dispatch.DivergingDispatch` | chip8/base.py:598-601 | For a word Ex00 or Fx00, the walk never reaches a handler, at any nesting depth. |
| `Dispatch.SelfDispatchLoops` | chip8/base.py:625-628 | A sub-dispatcher whose re-masked key is its own key keeps calling itself for as long as nesting is allowed. |
| `Dispatch.UnmappedFamilyFifteen` | chip8/base.py:115-116 | A family F word whose nonzero low byte is not one of the nine table keys reaches the default handler, `unknown_op_code`. |
| `Interpreter.Fetch` | chip8/base.py:233-235 | The fetch succeeds exactly when the counter and the cell after it are valid indices. Otherwise it faults. |
| `Interpreter.FetchBigEndian` | chip8/base.py:233-235 | With a byte in the second cell, the fetched word is the first cell times 256 plus the second: high byte first. |
| `Interpreter.Cycle` | chip8/base.py:195-203 | One pass of the run loop succeeds exactly when its step does. It then leaves `drawing` cleared and the step's counter, and it sounds exactly when the stepped machine's sound timer was 1. |
| `Timers.CycleTicks` | chip8/base.py:195-225 | After a successful step, one pass of the run loop clears `drawing` and counts each timer down by one, stopping at 0; it sounds exactly when the sound timer was 1. |
| `Control.StepRunsStoredInstruction` | chip8/base.py:230-239 | When the counter points at the two bytes of an instruction's canonical word, a step runs that instruction with the counter already advanced by two. |
| `Control.UnknownOnlyAdvances` | chip8/base.py:734-736 | A word that reaches the unknown handler changes nothing except moving the counter forward by two. |
| `Control.FetchFaults` | chip8/base.py:233-235 | A step whose counter or next cell is outside memory faults with a memory fault. |
| `Control.DivergingStep` | chip8/base.py:142-145 | A step over a word Ex00 or Fx00 never completes. |
| `Control.SkipOnlyMovesCounter` | chip8/base.py:359-386 | SE, SNE, SKP and SKNP change nothing except the counter, which moves by 0 or 2. |
| `Control.SkipByteComplement` | chip8/base.py:359-375 | SE Vx, byte skips exactly when SNE Vx, byte does not, and SE skips exactly when Vx equals the byte. |
| `Control.SkipRegComplement` | chip8/base.py:377-386 | SE Vx, Vy skips exactly when SNE Vx, Vy does not, and SE skips exactly when the two registers are equal. |
| `Control.SkipKeyComplement` | chip8/base.py:603-623 | SKP skips exactly when SKNP does not, and SKP skips exactly when Vx is one of the keys held. |
| `Control.CallThenRet` | chip8/base.py:348-357 | CALL pushes the advanced counter and jumps to nnn. RET on the result gives back exactly the machine before the CALL. |
| `Control.RetSpec` | chip8/base.py:319-327 | RET faults exactly when the stack is empty. Otherwise it pops the top into the counter and changes nothing else. |
| `Control.StepCallThenRet` | chip8/base.py:348-357 | Stepping over a CALL word and then over a RET word at its target resumes after the CALL, with the stack as it was. |
| `Control.ExampleLoaded` | chip8/base.py:186-193 | Loading the words 6005 6103 8015 into a fresh machine puts their six bytes at 0x200 .. 0x205, with the counter at 0x200 and every register 0. |
| `Control.ExampleProgram` | chip8/base.py:473-483 | Three steps of LD V0, 5; LD V1, 3; SUB V0, V1 from a fresh machine leave V0 = 2, V1 = 3, VF = 1 and the counter at 0x206. |
| `Control.JumpV0Unmasked` | chip8/base.py:545-552 | JP V0 jumps to nnn + V0 without a mask. From 0xFFF on, the next fetch faults. |
| `Control.KeyWait` | chip8/base.py:639-650 | With no key held, a step over LD Vx, K leaves the machine exactly as it was. With keys held, Vx receives the last key iterated and the counter moves on. |
| `Control.AddISpec` | chip8/base.py:670-678 | ADD I, Vx adds Vx to I unmasked. VF is 1 exactly when the old VF plus Vx exceeds 0xFFF, and no other register changes. |
| `Control.AddIFlagOperand` | chip8/base.py:677-678 | ADD I, VF sets VF to whether 2·VF exceeds 0xFFF and then adds that new flag, not the old VF, to I; nothing else changes. |
| `Control.DelayReadBack` | chip8/base.py:630-659 | LD DT, Vx followed by LD Vy, DT copies Vx to Vy through the delay timer. |
| `Arithmetic.AddRegSpec` | chip8/base.py:459-471 | ADD Vx, Vy stores the sum mod 256 and sets VF exactly when the sum exceeds 255. For byte operands, the result plus 256 times VF is the full sum. |
| `Arithmetic.AddRegIntoFlag` | chip8/base.py:468-471 | ADD VF, Vy: the low byte of the sum replaces the carry just written. |
| `Arithmetic.AddByteSpec` | chip8/base.py:398-407 | ADD Vx, byte wraps modulo 256 and leaves VF and every other register alone. |
| `Arithmetic.SubRegSpec` | chip8/base.py:473-483 | SUB Vx, Vy sets VF exactly when Vx > Vy. Vx receives the exact difference, so adding Vy gives back the old Vx. |
| `Arithmetic.SubnRegSpec` | chip8/base.py:500-510 | SUBN Vx, Vy sets VF exactly when Vy > Vx. Vx receives Vy - Vx, unreduced. |
| `Arithmetic.SubIntoFlag` | chip8/base.py:473-510 | SUB VF, Vy and SUBN VF, Vy write the flag first and the difference last, so VF holds the unreduced difference and no other register changes. |
| `Arithmetic.SubLeavesByteRange` | chip8/base.py:481-483 | Subtracting a larger byte from a smaller one leaves a negative register. |
| `Arithmetic.ShrSpec` | chip8/base.py:485-495 | SHR puts bit 0 into VF and the halved value, as a byte, into Vx. For a byte, twice the result plus VF is the old value. |
| `Arithmetic.ShlSpec` | chip8/base.py:512-523 | SHL puts bit 7 into VF and the doubled value mod 256 into Vx. For a byte, the result plus 256 times VF is twice the old value. |
| `Arithmetic.ShiftIntoFlag` | chip8/base.py:493-495 | SHR VF leaves VF = 0, and SHL VF leaves twice the old bit 7: the shift acts on the flag just written. |
| `Arithmetic.LogicKeepsBytes` | chip8/base.py:426-457 | OR, AND and XOR store Python's `\|`, `&` and `^` of Vx and Vy in Vx for any integers, change no other register, and on two bytes give a byte. |
| `Arithmetic.LogicBitwise` | chip8/base.py:426-457 | Bit k of Vx after OR, AND and XOR is the or, and, exclusive or of bit k of Vx and Vy, whatever integers they hold. |
| `Arithmetic.RndSpec` | chip8/base.py:554-564 | RND Vx, kk stores `rnd & kk`, a byte, and changes nothing else. |
| `MemoryOps.DigitsRecompose` | chip8/base.py:699-701 | The three digits are each at most 9, and they recompose `v mod 1000`. |
| `MemoryOps.BcdSpec` | chip8/base.py:691-707 | LD B, Vx faults exactly when one of I, I+1, I+2 is out of range. Otherwise it writes the hundreds, tens and ones digits of Vx mod 1000 there and changes no other cell. |
| `MemoryOps.BcdOfByte` | chip8/base.py:699-707 | For a byte, the written digits spell Vx itself, and the hundreds digit is at most 2. |
| `MemoryOps.StoreRegsSpec` | chip8/base.py:711-721 | LD [I], Vx writes V0 .. V(x-1) from I on and leaves the cell at I + x and every other cell alone. It sets I to I + x + 1 and faults exactly when an index is out of range. |
| `MemoryOps.LoadRegsSpec` | chip8/base.py:723-732 | LD Vx, [I] loads V0 .. V(x-1) from I on, leaves Vx .. VF alone, and sets I to I + x + 1. It faults exactly when an index is out of range. |
| `MemoryOps.StoreThenLoad` | chip8/base.py:711-732 | Storing V0 .. V(x-1), putting I back, and loading restores those registers. |
| `MemoryOps.GlyphAddress` | chip8/base.py:680-689 | With the font loaded and a digit in Vx, LD F, Vx points I at that digit's five glyph rows. |
| `MemoryOps.DrawMachineSpec` | chip8/base.py:566-596 | DRW faults exactly when a sprite row index is out of range. Otherwise it flips exactly the lit cells at (Vx & 0xFF, Vy & 0xFF) and sets VF exactly when a lit cell held 1. It leaves I, memory, the counter and the other registers unchanged, raises `drawing`, and keeps a display of 0s and 1s. |
| `MemoryOps.ClearSpec` | chip8/base.py:311-317 | CLS blanks every cell, raises `drawing`, and changes nothing else. |
| `MemoryOps.DisplayUntouched` | chip8/base.py:300-736 | Every handler other than CLS and DRW leaves the display as it was. |
| `MemoryOps.StepKeepsMonochrome` | chip8/base.py:590-594 | Every step keeps the display made of 0s and 1s. |
| `MemoryOps.LoadedProgramFetch` | chip8/base.py:186-193 | After loading an image into the constructed machine, the first fetch reads its first two bytes, high byte first. |
| `Sprite.SpriteBitIsBit` | chip8/base.py:585 | The probe `pixel & (0x80 >> c)` is nonzero exactly when bit 7 - c of the row is set: rows are read most significant bit first. |
| `Sprite.CellIndexInverse` | chip8/base.py:589-591 | The cell of sprite bit (c, r) is exactly the cell whose column offset from x, mod 64, is c and whose row offset from y, mod 32, is r. |
| `Sprite.CellsSpec` | chip8/base.py:582-591 | The cells the walk visits are exactly the lit cells, each visited once. |
| `Sprite.XorCellsSpec` | chip8/base.py:592-594 | Flipping distinct cells one by one flips each of them once. The flag reports whether any of them held 1 before the walk. |
| `Sprite.DrawSpec` | chip8/base.py:577-596 | Drawing flips exactly the lit cells and sets the flag exactly when a lit cell held 1. On a display of 0s and 1s, a flip is 1 - cell and the display stays 0s and 1s. |
| `Timers.TicksCountDown` | chip8/base.py:218-225 | After n ticks, each timer has counted down by n and stopped at 0, and nothing else has changed. The sound played once if the sound timer ran out within those ticks, and never otherwise. A non-negative timer never goes negative. |
| `Timers.SoundAfter` | chip8/base.py:222-225 | A sound timer loaded with s > 0 sounds on exactly the s-th tick. |

## Left out

- The frontends (`chip8/py_game.py`, `chip8/console.py`): rendering, keyboard polling, sound output, clock throttling. The keys held are a parameter of `Step`. `play_sound` is the boolean that `Tick` returns. `Cycle` takes the pygame frontend's redraw to clear `drawing`; the console frontend leaves it set.
- Reading the program file in `load_rom`: only the copy of the bytes to 0x200 + k is modelled, by `LoadRom`.
- `random.randint` in RND: the random byte is the parameter `rnd`.
- Trace printing (`trace_mode`, `debug_current_state`): it does not change the machine.
- The `run` loop's repetition and its `working` flag: `Cycle` models one pass. `stop` does nothing in this class.
- Iteration order of the key set: it is the order of the `keys` sequence, which the caller chooses.
- The depth at which CPython stops a never-returning dispatch: such a word gives the fault `Diverges`. The table walk `Dispatch.Run` bounds the nesting by a fuel count, and `Dispatch.DivergingDispatch` shows that no fuel suffices for these words.
- The faults stop the model where Python raises. A handler that faults part-way, such as DRW after some rows or LD [I], Vx after some writes, has its partial writes discarded.
- `Interpreter.Tick`: its contract restates the tick. The countdown and the sound are stated for any number of ticks by `Timers.TicksCountDown`.
- `_Fx33` divides with `/` and truncates with `int`. The model uses integer division, which agrees for the values 0 .. 999 that `v % 1000` produces.
- The field `stack_counter`, which nothing reads. The field `op_code` is not stored: it is the word `Step` passes to `Decode`.
