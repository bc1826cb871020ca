/**
 One instruction cycle of the interpreter (chip8/base.py): `process_op_code`
 fetches a big-endian word at the program counter, advances the counter by two
 and runs the handler the word reaches; `update_timers` counts the timers down.

 The handlers write the registers one statement at a time, so when an operand
 is VF itself the later write wins; `Execute` keeps that order. The keys held
 down are the frontend's set, given here as the sequence in which iterating the
 set visits them. The byte `random.randint` would produce is a parameter.
 */
module Interpreter {
  import Bits
  import opened State
  import opened Decoder
  import Sprite

  /** `memory[pc] << 8 | memory[pc + 1]`. */
  function Fetch(m: Machine): (r: Result<int>)
    ensures r.Ok? <==> InBounds(m.pc) && InBounds(m.pc + 1)
  {
    if !InBounds(m.pc) then Err(MemoryFault(m.pc))
    else if !InBounds(m.pc + 1) then Err(MemoryFault(m.pc + 1))
    else Ok(Bits.Or(m.memory[Slot(m.pc)] * 0x100, m.memory[Slot(m.pc + 1)]))
  }

  /** With a byte in the second cell, the word is the first cell's value
      followed by the second's: the high byte comes first in memory. */
  lemma FetchBigEndian(m: Machine)
    requires InBounds(m.pc) && InBounds(m.pc + 1)
    requires 0 <= m.memory[Slot(m.pc + 1)] < 0x100
    ensures Fetch(m) == Ok(m.memory[Slot(m.pc)] * 0x100 + m.memory[Slot(m.pc + 1)])
  {
    Bits.Pow2Values();
    Bits.OrShifted(m.memory[Slot(m.pc)], m.memory[Slot(m.pc + 1)], 8);
  }

  /** The handlers' `1 if ... else 0`. */
  function Flag(b: bool): int { if b then 1 else 0 }

  /** Skip the next instruction when `b` holds. */
  function SkipIf(m: Machine, b: bool): Machine
  {
    if b then m.(pc := m.pc + 2) else m
  }

  /** BCD digits of `v` as `_Fx33` computes them; Python's `%` on a negative
      value is non-negative, like Dafny's. */
  function BcdDigits(v: int): seq<int>
  {
    [(v % 1000) / 100, (v % 100) / 10, v % 10]
  }

  /** `_Dxyn`: read `n` sprite rows from I on, draw them at (Vx & 0xFF,
      Vy & 0xFF) and record the collision in VF. */
  function DrawSprite(m: Machine, x: Nibble, y: Nibble, n: Nibble): Result<Machine>
  {
    var px, py := Bits.Mask(m.V[x], 8), Bits.Mask(m.V[y], 8);
    var rows :- ReadRange(m.memory, m.I, n);
    var (display, hit) := Sprite.Draw(m.display, rows, px, py);
    Ok(m.(V := m.V[VF := Flag(hit)], display := display, drawing := true))
  }

  /** `_Fx33`: the decimal digits of Vx at I, I + 1, I + 2. */
  function StoreBcd(m: Machine, x: Nibble): Result<Machine>
  {
    var memory :- WriteRange(m.memory, m.I, BcdDigits(m.V[x]));
    Ok(m.(memory := memory))
  }

  /** `_Fx55`: V0 .. V(x-1) to memory from I on, then `I += x + 1`. */
  function StoreRegisters(m: Machine, x: Nibble): Result<Machine>
  {
    var memory :- WriteRange(m.memory, m.I, m.V[..x]);
    Ok(m.(memory := memory, I := m.I + x + 1))
  }

  /** `_Fx65`: V0 .. V(x-1) from memory from I on, then `I += x + 1`. */
  function LoadRegisters(m: Machine, x: Nibble): Result<Machine>
  {
    var vals :- ReadRange(m.memory, m.I, x);
    Ok(m.(V := vals + m.V[x..], I := m.I + x + 1))
  }

  /** The handler for `i`, on the machine whose counter already points past
      the instruction. */
  function Execute(m: Machine, i: Instr, keys: seq<int>, rnd: int): Result<Machine>
  {
    match i
    case Sys(nnn) => Ok(m.(pc := nnn))
    case Cls => Ok(m.(display := Blank(), drawing := true))
    case Ret =>
      if |m.stack| == 0 then Err(StackUnderflow)
      else Ok(m.(pc := m.stack[|m.stack| - 1], stack := m.stack[..|m.stack| - 1]))
    case Jp(nnn) => Ok(m.(pc := nnn))
    case Call(nnn) => Ok(m.(stack := m.stack + [m.pc], pc := nnn))
    case SeByte(x, kk) => Ok(SkipIf(m, m.V[x] == kk))
    case SneByte(x, kk) => Ok(SkipIf(m, m.V[x] != kk))
    case SeReg(x, y) => Ok(SkipIf(m, m.V[x] == m.V[y]))
    case LdByte(x, kk) => Ok(m.(V := m.V[x := kk]))
    case AddByte(x, kk) => Ok(m.(V := m.V[x := Bits.Mask(m.V[x] + kk, 8)]))
    case LdReg(x, y) => Ok(m.(V := m.V[x := m.V[y]]))
    case OrReg(x, y) => Ok(m.(V := m.V[x := Bits.Or(m.V[x], m.V[y])]))
    case AndReg(x, y) => Ok(m.(V := m.V[x := Bits.And(m.V[x], m.V[y])]))
    case XorReg(x, y) => Ok(m.(V := m.V[x := Bits.Xor(m.V[x], m.V[y])]))
    case AddReg(x, y) =>
      var sum := m.V[x] + m.V[y];
      var V1 := m.V[VF := Flag(sum > 0xFF)];
      Ok(m.(V := V1[x := Bits.Mask(sum, 8)]))
    case SubReg(x, y) =>
      var diff := m.V[x] - m.V[y];
      var V1 := m.V[VF := Flag(diff > 0)];
      Ok(m.(V := V1[x := diff]))
    case Shr(x, y) =>
      var V1 := m.V[VF := Bits.And(m.V[x], 1)];
      Ok(m.(V := V1[x := Bits.Mask(V1[x] / 2, 8)]))
    case SubnReg(x, y) =>
      var diff := m.V[y] - m.V[x];
      var V1 := m.V[VF := Flag(diff > 0)];
      Ok(m.(V := V1[x := diff]))
    case Shl(x, y) =>
      var V1 := m.V[VF := Bits.And(m.V[x] / 0x80, 1)];
      Ok(m.(V := V1[x := Bits.Mask(V1[x] * 2, 8)]))
    case SneReg(x, y) => Ok(SkipIf(m, m.V[x] != m.V[y]))
    case LdI(nnn) => Ok(m.(I := nnn))
    case JpV0(nnn) => Ok(m.(pc := nnn + m.V[0]))
    case Rnd(x, kk) => Ok(m.(V := m.V[x := Bits.Mask(Bits.And(rnd, kk), 8)]))
    case Drw(x, y, n) => DrawSprite(m, x, y, n)
    case Skp(x) => Ok(SkipIf(m, m.V[x] in keys))
    case Sknp(x) => Ok(SkipIf(m, m.V[x] !in keys))
    case LdVxDt(x) => Ok(m.(V := m.V[x := m.delay]))
    case LdVxK(x) =>
      if |keys| == 0 then Ok(m.(pc := m.pc - 2))
      else Ok(m.(V := m.V[x := keys[|keys| - 1]]))
    case LdDtVx(x) => Ok(m.(delay := m.V[x]))
    case LdStVx(x) => Ok(m.(sound := m.V[x]))
    case AddI(x) =>
      var V1 := m.V[VF := Flag(m.V[VF] + m.V[x] > 0xFFF)];
      Ok(m.(V := V1, I := m.I + V1[x]))
    case LdF(x) => Ok(m.(I := m.V[x] * GlyphSize))
    case LdB(x) => StoreBcd(m, x)
    case StoreRegs(x) => StoreRegisters(m, x)
    case LoadRegs(x) => LoadRegisters(m, x)
    case Unknown => Ok(m)
    case Diverge => Err(Diverges)
  }

  /** `process_op_code`: fetch, advance the counter by two, run the handler. */
  function Step(m: Machine, keys: seq<int>, rnd: int): Result<Machine>
  {
    var w :- Fetch(m);
    Execute(m.(pc := m.pc + 2), Decode(w), keys, rnd)
  }

  /** `update_timers`: each timer counts down while positive; the second
      component is whether `play_sound` is called, which happens when the
      sound timer reaches 0 on this tick. */
  function Tick(m: Machine): (r: (Machine, bool))
    ensures r.0 == m.(delay := r.0.delay, sound := r.0.sound)
    ensures r.0.delay == if m.delay > 0 then m.delay - 1 else m.delay
    ensures r.0.sound == if m.sound > 0 then m.sound - 1 else m.sound
    ensures r.1 <==> m.sound == 1
  {
    var delay := if m.delay > 0 then m.delay - 1 else m.delay;
    if m.sound > 0 then
      var sound := m.sound - 1;
      (m.(delay := delay, sound := sound), sound == 0)
    else
      (m.(delay := delay), false)
  }

  /** One pass of `run`: the keys read by the frontend, one instruction, the
      frontend's redraw (which clears `drawing`), one timer tick. */
  function Cycle(m: Machine, keys: seq<int>, rnd: int): (r: Result<(Machine, bool)>)
    ensures r.Ok? <==> Step(m, keys, rnd).Ok?
    ensures r.Ok? ==> !r.value.0.drawing
    ensures r.Ok? ==> (r.value.1 <==> Step(m, keys, rnd).value.sound == 1)
    ensures r.Ok? ==> r.value.0.pc == Step(m, keys, rnd).value.pc
  {
    var m1 :- Step(m, keys, rnd);
    Ok(Tick(m1.(drawing := false)))
  }
}
