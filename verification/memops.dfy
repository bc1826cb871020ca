/**
 The handlers that touch memory or the display (chip8/base.py, `_Fx33`,
 `_Fx55`, `_Fx65`, `_Fx29`, `_Dxyn`, `_00E0`), the loading of a program image,
 and the invariant that the display holds only 0s and 1s.

 Memory is indexed as a Python list: `I + k` may be negative, in which case it
 counts from the end, and an index outside -4096..4095 stops the run with a
 fault. The writes land on `Slot(I + k)`.
 */
module MemoryOps {
  import Bits
  import opened State
  import opened Decoder
  import opened Interpreter
  import Sprite

  /** DRW and the block loads run their own handler functions. */
  lemma DrawHandler(m: Machine, x: Nibble, y: Nibble, n: Nibble, keys: seq<int>, rnd: int)
    ensures Execute(m, Drw(x, y, n), keys, rnd) == DrawSprite(m, x, y, n)
  {
  }

  lemma LoadHandler(m: Machine, x: Nibble, keys: seq<int>, rnd: int)
    ensures Execute(m, LoadRegs(x), keys, rnd) == LoadRegisters(m, x)
  {
  }

  lemma StoreHandler(m: Machine, x: Nibble, keys: seq<int>, rnd: int)
    ensures Execute(m, StoreRegs(x), keys, rnd) == StoreRegisters(m, x)
  {
  }

  // ---------------------------------------------------------------------------
  // LD B, Vx
  // ---------------------------------------------------------------------------

  /** The three decimal digits of `v mod 1000`. */
  lemma DigitsRecompose(v: int)
    ensures var d := BcdDigits(v);
      && 0 <= d[0] <= 9 && 0 <= d[1] <= 9 && 0 <= d[2] <= 9
      && 100 * d[0] + 10 * d[1] + d[2] == v % 1000
  {
    var a, b := v % 1000, v % 100;
    var q := v / 1000;
    Bits.DivModUnique(v, 100, 10 * q + a / 100, a % 100);
    Bits.DivModUnique(v, 10, 100 * q + 10 * (a / 100) + (a % 100) / 10, (a % 100) % 10);
    assert b == a % 100;
  }

  /** LD B, Vx writes the hundreds, tens and ones digits of Vx (mod 1000) at
      I, I+1 and I+2 and changes no other cell; it faults exactly when one of
      the three indices is outside the list. */
  lemma BcdSpec(m: Machine, x: Nibble, keys: seq<int>, rnd: int)
    ensures Execute(m, LdB(x), keys, rnd).Ok? <==> RangeInBounds(m.I, 3)
    ensures Execute(m, LdB(x), keys, rnd).Ok? ==>
      var r := Execute(m, LdB(x), keys, rnd).value;
      var h, t, o := r.memory[Slot(m.I)], r.memory[Slot(m.I + 1)], r.memory[Slot(m.I + 2)];
      && 0 <= h <= 9 && 0 <= t <= 9 && 0 <= o <= 9
      && 100 * h + 10 * t + o == m.V[x] % 1000
      && r == m.(memory := r.memory)
      && forall a :: 0 <= a < MemorySize && !Covers(m.I, 3, a) ==> r.memory[a] == m.memory[a]
  {
    DigitsRecompose(m.V[x]);
  }

  /** For a register holding a byte, the digits spell the register itself. */
  lemma BcdOfByte(m: Machine, x: Nibble, keys: seq<int>, rnd: int)
    requires 0 <= m.V[x] < 0x100 && RangeInBounds(m.I, 3)
    ensures Execute(m, LdB(x), keys, rnd).Ok?
    ensures var r := Execute(m, LdB(x), keys, rnd).value;
      100 * r.memory[Slot(m.I)] + 10 * r.memory[Slot(m.I + 1)] + r.memory[Slot(m.I + 2)] == m.V[x]
      && r.memory[Slot(m.I)] <= 2
  {
    BcdSpec(m, x, keys, rnd);
  }

  // ---------------------------------------------------------------------------
  // LD [I], Vx and LD Vx, [I]
  // ---------------------------------------------------------------------------

  /** LD [I], Vx stores V0 .. V(x-1) from I on, leaves the cell at I + x (where
      Vx would go) and every other cell alone, and advances I by x + 1. */
  lemma StoreRegsSpec(m: Machine, x: Nibble, keys: seq<int>, rnd: int)
    ensures Execute(m, StoreRegs(x), keys, rnd).Ok? <==> RangeInBounds(m.I, x)
    ensures Execute(m, StoreRegs(x), keys, rnd).Ok? ==>
      var r := Execute(m, StoreRegs(x), keys, rnd).value;
      && r == m.(memory := r.memory, I := m.I + x + 1)
      && (forall k :: 0 <= k < x ==> r.memory[Slot(m.I + k)] == m.V[k])
      && (InBounds(m.I + x) ==> r.memory[Slot(m.I + x)] == m.memory[Slot(m.I + x)])
      && forall a :: 0 <= a < MemorySize && !Covers(m.I, x, a) ==> r.memory[a] == m.memory[a]
  {
  }

  /** LD Vx, [I] loads V0 .. V(x-1) from I on, leaves Vx .. VF alone, and
      advances I by x + 1. */
  lemma LoadRegsSpec(m: Machine, x: Nibble, keys: seq<int>, rnd: int)
    ensures Execute(m, LoadRegs(x), keys, rnd).Ok? <==> RangeInBounds(m.I, x)
    ensures Execute(m, LoadRegs(x), keys, rnd).Ok? ==>
      var r := Execute(m, LoadRegs(x), keys, rnd).value;
      && r == m.(V := r.V, I := m.I + x + 1)
      && (forall k :: 0 <= k < x ==> r.V[k] == m.memory[Slot(m.I + k)])
      && forall k :: x <= k < RegisterCount ==> r.V[k] == m.V[k]
  {
  }

  /** Storing V0 .. V(x-1), putting I back, and loading restores those
      registers in any machine that shares the stored memory. */
  lemma StoreThenLoad(m: Machine, m2: Machine, x: Nibble, keys: seq<int>, rnd: int)
    requires RangeInBounds(m.I, x)
    requires Execute(m, StoreRegs(x), keys, rnd).Ok?
    requires m2.memory == Execute(m, StoreRegs(x), keys, rnd).value.memory && m2.I == m.I
    ensures Execute(m2, LoadRegs(x), keys, rnd).Ok?
    ensures var r := Execute(m2, LoadRegs(x), keys, rnd).value;
      r.V[..x] == m.V[..x] && r.V[x..] == m2.V[x..] && r.I == m.I + x + 1
  {
    StoreHandler(m, x, keys, rnd);
    LoadHandler(m2, x, keys, rnd);
    var stored := WriteRange(m.memory, m.I, m.V[..x]).value;
    assert stored == m2.memory;
    ReadAfterWrite(m.memory, m.I, m.V[..x]);
    assert ReadRange(m2.memory, m2.I, x) == Ok(m.V[..x]);
    var V2 := m.V[..x] + m2.V[x..];
    assert LoadRegisters(m2, x) == Ok(m2.(V := V2, I := m2.I + x + 1));
    assert V2[..x] == m.V[..x] && V2[x..] == m2.V[x..];
  }

  // ---------------------------------------------------------------------------
  // LD F, Vx
  // ---------------------------------------------------------------------------

  /** The font table sits at 0 .. 79. */
  predicate FontLoaded(mem: Memory)
  {
    forall a :: 0 <= a < |Font| ==> mem[a] == Font[a]
  }

  /** LD F, Vx points I at the five rows of the glyph for the digit in Vx. */
  lemma GlyphAddress(m: Machine, x: Nibble, keys: seq<int>, rnd: int)
    requires FontLoaded(m.memory) && 0 <= m.V[x] < 16
    ensures Execute(m, LdF(x), keys, rnd).Ok?
    ensures var r := Execute(m, LdF(x), keys, rnd).value;
      && r == m.(I := GlyphSize * m.V[x])
      && ReadRange(r.memory, r.I, GlyphSize) == Ok(Font[GlyphSize * m.V[x] .. GlyphSize * (m.V[x] + 1)])
  {
    var base := GlyphSize * m.V[x];
    var rows := ReadRange(m.memory, base, GlyphSize);
    assert rows.Ok?;
    assert rows.value == Font[base .. base + GlyphSize];
  }

  // ---------------------------------------------------------------------------
  // DRW Vx, Vy, nibble and CLS
  // ---------------------------------------------------------------------------

  /** DRW reads the n sprite rows from I on (faulting exactly when one index is
      outside the list), draws them at (Vx mod 256, Vy mod 256): the lit cells
      flip, the rest stay, VF records whether a lit cell held 1, and I, memory,
      the counter and the other registers are unchanged. */
  lemma DrawMachineSpec(m: Machine, x: Nibble, y: Nibble, n: Nibble, keys: seq<int>, rnd: int)
    ensures Execute(m, Drw(x, y, n), keys, rnd).Ok? <==> RangeInBounds(m.I, n)
    ensures Execute(m, Drw(x, y, n), keys, rnd).Ok? ==>
      var r := Execute(m, Drw(x, y, n), keys, rnd).value;
      var rows := ReadRange(m.memory, m.I, n).value;
      var px, py := m.V[x] % 0x100, m.V[y] % 0x100;
      && |rows| == n
      && (forall k :: 0 <= k < n ==> rows[k] == m.memory[Slot(m.I + k)])
      && r == m.(V := r.V, display := r.display, drawing := true)
      && (forall j :: 0 <= j < RegisterCount && j != VF ==> r.V[j] == m.V[j])
      && (r.V[VF] == 1 <==> exists a: Sprite.Cell :: Sprite.Lit(rows, px, py, a) && m.display[a] == 1)
      && (r.V[VF] == 0 || r.V[VF] == 1)
      && (forall a: Sprite.Cell :: r.display[a]
            == if Sprite.Lit(rows, px, py, a) then Bits.Xor(m.display[a], 1) else m.display[a])
      && (Monochrome(m.display) ==> Monochrome(r.display))
  {
    DrawHandler(m, x, y, n, keys, rnd);
    if RangeInBounds(m.I, n) {
      var rows := ReadRange(m.memory, m.I, n).value;
      var px, py := m.V[x] % 0x100, m.V[y] % 0x100;
      assert Bits.Mask(m.V[x], 8) == px && Bits.Mask(m.V[y], 8) == py by {
        Bits.Pow2Values();
      }
      var drawn := Sprite.Draw(m.display, rows, px, py);
      assert DrawSprite(m, x, y, n)
          == Ok(m.(V := m.V[VF := Flag(drawn.1)], display := drawn.0, drawing := true));
      Sprite.DrawSpec(m.display, rows, px, py);
    }
  }

  /** CLS blanks every cell and raises `drawing`. */
  lemma ClearSpec(m: Machine, keys: seq<int>, rnd: int)
    ensures Execute(m, Cls, keys, rnd).Ok?
    ensures var r := Execute(m, Cls, keys, rnd).value;
      && r == m.(display := r.display, drawing := true)
      && forall c :: 0 <= c < DisplaySize ==> r.display[c] == 0
  {
  }

  /** Only CLS and DRW touch the display. */
  lemma DisplayUntouched(m: Machine, i: Instr, keys: seq<int>, rnd: int)
    requires !i.Cls? && !i.Drw? && Execute(m, i, keys, rnd).Ok?
    ensures Execute(m, i, keys, rnd).value.display == m.display
  {
  }

  /** Every step keeps the display made of 0s and 1s, so with `Init` every
      reachable display is. */
  lemma StepKeepsMonochrome(m: Machine, keys: seq<int>, rnd: int)
    requires Monochrome(m.display) && Step(m, keys, rnd).Ok?
    ensures Monochrome(Step(m, keys, rnd).value.display)
  {
    var i := Decode(Fetch(m).value);
    var m1 := m.(pc := m.pc + 2);
    match i {
      case Drw(x, y, n) => DrawMachineSpec(m1, x, y, n, keys, rnd);
      case Cls =>
      case _ => DisplayUntouched(m1, i, keys, rnd);
    }
  }

  // ---------------------------------------------------------------------------
  // Loading a program
  // ---------------------------------------------------------------------------

  /** After loading an image of bytes into the fresh machine, the first step
      fetches the image's first two bytes, high byte first. */
  lemma LoadedProgramFetch(rom: seq<int>)
    requires 2 <= |rom| && ProgramStart + |rom| <= MemorySize
    requires 0 <= rom[1] < 0x100
    ensures LoadRom(Init(), rom).Ok?
    ensures Fetch(LoadRom(Init(), rom).value) == Ok(rom[0] * 0x100 + rom[1])
  {
    var m := LoadRom(Init(), rom).value;
    assert m.pc == ProgramStart;
    assert m.memory[Slot(m.pc)] == rom[0] && m.memory[Slot(m.pc + 1)] == rom[1];
    FetchBigEndian(m);
  }
}
