/**
 Control flow of the interpreter (chip8/base.py): the fetch and the counter
 advance in `process_op_code`, the skips, CALL and RET on the call stack, the
 jumps, the key wait, ADD I and the unknown handler.
 */
module Control {
  import Bits
  import opened State
  import opened Decoder
  import opened Interpreter

  /** The word at the counter, when it can be fetched. */
  predicate FetchesTo(m: Machine, i: Instr)
  {
    Fetch(m).Ok? && Decode(Fetch(m).value) == i
  }

  /** A step over the two bytes an assembler writes for `i`, high byte first,
      runs `i` on the machine whose counter has moved past them. */
  lemma StepRunsStoredInstruction(m: Machine, i: Instr, keys: seq<int>, rnd: int)
    requires Reachable(i) && InBounds(m.pc) && InBounds(m.pc + 1)
    requires m.memory[Slot(m.pc)] == Encode(i) / 0x100
    requires m.memory[Slot(m.pc + 1)] == Encode(i) % 0x100
    ensures Step(m, keys, rnd) == Execute(m.(pc := m.pc + 2), i, keys, rnd)
  {
    var w := Encode(i);
    assert Fetch(m) == Ok(w) by {
      FetchBigEndian(m);
      assert (w / 0x100) * 0x100 + w % 0x100 == w;
    }
    assert Decode(w) == i by {
      DecodeEncode(i);
    }
  }

  /** A word that reaches `unknown_op_code` only moves the counter past it. */
  lemma UnknownOnlyAdvances(m: Machine, keys: seq<int>, rnd: int)
    requires FetchesTo(m, Unknown)
    ensures Step(m, keys, rnd) == Ok(m.(pc := m.pc + 2))
  {
  }

  /** Step faults on the fetch exactly when the counter or the cell after it
      is outside memory. */
  lemma FetchFaults(m: Machine, keys: seq<int>, rnd: int)
    requires !(InBounds(m.pc) && InBounds(m.pc + 1))
    ensures Step(m, keys, rnd).Err? && Step(m, keys, rnd).fault.MemoryFault?
  {
  }

  /** Ex00 and Fx00 never return. */
  lemma DivergingStep(m: Machine, keys: seq<int>, rnd: int)
    requires FetchesTo(m, Diverge)
    ensures Step(m, keys, rnd) == Err(Diverges)
  {
  }

  /** The instructions that only compare and skip. */
  predicate IsSkip(i: Instr)
  {
    i.SeByte? || i.SneByte? || i.SeReg? || i.SneReg? || i.Skp? || i.Sknp?
  }

  /** A skip changes nothing but the counter, which moves by 0 or 2. */
  lemma SkipOnlyMovesCounter(m: Machine, i: Instr, keys: seq<int>, rnd: int)
    requires IsSkip(i)
    ensures Execute(m, i, keys, rnd).Ok?
    ensures var r := Execute(m, i, keys, rnd).value;
      r == m.(pc := r.pc) && (r.pc == m.pc || r.pc == m.pc + 2)
  {
  }

  /** SE and SNE with a byte are complementary: exactly one of the two
      skips, and SE skips exactly when Vx equals the byte. */
  lemma SkipByteComplement(m: Machine, x: Nibble, kk: Byte, keys: seq<int>, rnd: int)
    ensures Execute(m, SeByte(x, kk), keys, rnd) == Ok(m.(pc := m.pc + 2))
        <==> Execute(m, SneByte(x, kk), keys, rnd) == Ok(m)
    ensures Execute(m, SeByte(x, kk), keys, rnd) == Ok(m.(pc := m.pc + 2)) <==> m.V[x] == kk
  {
  }

  /** SE and SNE with a register are complementary, and SE skips exactly when
      the two registers are equal. */
  lemma SkipRegComplement(m: Machine, x: Nibble, y: Nibble, keys: seq<int>, rnd: int)
    ensures Execute(m, SeReg(x, y), keys, rnd) == Ok(m.(pc := m.pc + 2))
        <==> Execute(m, SneReg(x, y), keys, rnd) == Ok(m)
    ensures Execute(m, SeReg(x, y), keys, rnd) == Ok(m.(pc := m.pc + 2)) <==> m.V[x] == m.V[y]
  {
  }

  /** SKP and SKNP are complementary, and SKP skips exactly when Vx is one of
      the keys held. */
  lemma SkipKeyComplement(m: Machine, x: Nibble, keys: seq<int>, rnd: int)
    ensures Execute(m, Skp(x), keys, rnd) == Ok(m.(pc := m.pc + 2))
        <==> Execute(m, Sknp(x), keys, rnd) == Ok(m)
    ensures Execute(m, Skp(x), keys, rnd) == Ok(m.(pc := m.pc + 2)) <==> m.V[x] in keys
  {
  }

  /** CALL pushes the address after it and jumps; RET undoes exactly that. */
  lemma CallThenRet(m: Machine, nnn: Address, keys: seq<int>, rnd: int)
    ensures Execute(m, Call(nnn), keys, rnd).Ok?
    ensures var c := Execute(m, Call(nnn), keys, rnd).value;
      && c.pc == nnn
      && c.stack == m.stack + [m.pc]
      && Execute(c, Ret, keys, rnd) == Ok(m)
  {
    var c := Execute(m, Call(nnn), keys, rnd).value;
    assert c.stack[..|c.stack| - 1] == m.stack;
  }

  /** RET faults exactly on an empty stack; otherwise it pops the top. */
  lemma RetSpec(m: Machine, keys: seq<int>, rnd: int)
    ensures Execute(m, Ret, keys, rnd) == Err(StackUnderflow) <==> |m.stack| == 0
    ensures |m.stack| > 0 ==>
      Execute(m, Ret, keys, rnd).Ok?
      && m.stack == Execute(m, Ret, keys, rnd).value.stack + [Execute(m, Ret, keys, rnd).value.pc]
      && Execute(m, Ret, keys, rnd).value
         == m.(pc := Execute(m, Ret, keys, rnd).value.pc, stack := Execute(m, Ret, keys, rnd).value.stack)
  {
  }

  /** Running a CALL word and then the RET word at its target resumes after
      the CALL with the stack as it was. */
  lemma StepCallThenRet(m: Machine, nnn: Address, keys: seq<int>, rnd: int)
    requires FetchesTo(m, Call(nnn))
    requires FetchesTo(m.(pc := nnn), Ret)
    ensures Step(m, keys, rnd).Ok?
    ensures Step(Step(m, keys, rnd).value, keys, rnd) == Ok(m.(pc := m.pc + 2))
  {
    var m1 := m.(pc := m.pc + 2);
    CallThenRet(m1, nnn, keys, rnd);
    var c := Execute(m1, Call(nnn), keys, rnd).value;
    assert Step(m, keys, rnd) == Ok(c);
    assert Fetch(c) == Fetch(m.(pc := nnn));
    assert Execute(c.(pc := c.pc + 2), Ret, keys, rnd) == Ok(m1);
  }

  /** JP V0, addr jumps to `nnn + V0` unmasked; from 0xFFF on, the next fetch
      falls outside memory. */
  lemma JumpV0Unmasked(m: Machine, nnn: Address, keys: seq<int>, rnd: int)
    ensures Execute(m, JpV0(nnn), keys, rnd) == Ok(m.(pc := nnn + m.V[0]))
    ensures nnn + m.V[0] >= MemorySize - 1 ==>
              Fetch(Execute(m, JpV0(nnn), keys, rnd).value).Err?
    ensures 0 <= m.V[0] < 0x100 ==> 0 <= nnn + m.V[0] <= 0xFFF + 0xFF
  {
  }

  /** LD Vx, K with no key held rewinds the counter, so the whole step leaves
      the machine as it was and the next step waits again; with keys held, Vx
      receives the last key iterated. */
  lemma KeyWait(m: Machine, x: Nibble, keys: seq<int>, rnd: int)
    requires FetchesTo(m, LdVxK(x))
    ensures Step(m, [], rnd) == Ok(m)
    ensures |keys| > 0 ==>
      Step(m, keys, rnd) == Ok(m.(pc := m.pc + 2, V := m.V[x := keys[|keys| - 1]]))
  {
  }

  /** ADD I, Vx: I grows by Vx without any mask, and the flag tests the old
      VF plus Vx, not I plus Vx. */
  lemma AddISpec(m: Machine, x: Nibble, keys: seq<int>, rnd: int)
    requires x != VF
    ensures Execute(m, AddI(x), keys, rnd).Ok?
    ensures var r := Execute(m, AddI(x), keys, rnd).value;
      && r == m.(V := r.V, I := r.I)
      && r.I == m.I + m.V[x]
      && (r.V[VF] == 1 <==> m.V[VF] + m.V[x] > 0xFFF)
      && (r.V[VF] == 0 <==> m.V[VF] + m.V[x] <= 0xFFF)
      && forall j :: 0 <= j < RegisterCount && j != VF ==> r.V[j] == m.V[j]
  {
  }

  /** ADD I, VF adds the flag it has just written. */
  lemma AddIFlagOperand(m: Machine, keys: seq<int>, rnd: int)
    ensures var f := if 2 * m.V[VF] > 0xFFF then 1 else 0;
      Execute(m, AddI(VF), keys, rnd) == Ok(m.(V := m.V[VF := f], I := m.I + f))
  {
  }

  /** LD DT, Vx followed by LD Vy, DT copies Vx into Vy through the delay
      timer, when no tick comes between them. */
  lemma DelayReadBack(m: Machine, x: Nibble, y: Nibble, keys: seq<int>, rnd: int)
    ensures Execute(m, LdDtVx(x), keys, rnd).Ok?
    ensures var d := Execute(m, LdDtVx(x), keys, rnd).value;
      && d == m.(delay := m.V[x])
      && Execute(d, LdVxDt(y), keys, rnd) == Ok(d.(V := m.V[y := m.V[x]]))
  {
  }

  /** `n` steps in a row, stopping at the first fault. */
  function Steps(m: Machine, keys: seq<int>, rnd: int, n: nat): Result<Machine>
    decreases n
  {
    if n == 0 then Ok(m)
    else
      var m1 :- Step(m, keys, rnd);
      Steps(m1, keys, rnd, n - 1)
  }

  /** The words 6005 6103 8015: LD V0, 5; LD V1, 3; SUB V0, V1. */
  const ExampleRom: seq<int> := [0x60, 0x05, 0x61, 0x03, 0x80, 0x15]

  /** Loading the example into a fresh machine puts its six bytes at 0x200 on. */
  lemma ExampleLoaded()
    ensures LoadRom(Init(), ExampleRom).Ok?
    ensures var m := LoadRom(Init(), ExampleRom).value;
      && m.pc == 0x200 && m.V == Init().V
      && m.memory[0x200] == 0x60 && m.memory[0x201] == 0x05 && m.memory[0x202] == 0x61
      && m.memory[0x203] == 0x03 && m.memory[0x204] == 0x80 && m.memory[0x205] == 0x15
  {
    var mem := LoadRom(Init(), ExampleRom).value.memory;
    assert mem[ProgramStart + 0] == ExampleRom[0] && mem[ProgramStart + 1] == ExampleRom[1];
    assert mem[ProgramStart + 2] == ExampleRom[2] && mem[ProgramStart + 3] == ExampleRom[3];
    assert mem[ProgramStart + 4] == ExampleRom[4] && mem[ProgramStart + 5] == ExampleRom[5];
  }

  /** The example program, loaded into a fresh machine, leaves V0 = 2, V1 = 3
      and VF = 1 after three steps, with the counter just past it. */
  lemma ExampleProgram(keys: seq<int>, rnd: int)
    ensures LoadRom(Init(), ExampleRom).Ok?
    ensures var r := Steps(LoadRom(Init(), ExampleRom).value, keys, rnd, 3);
      && r.Ok?
      && r.value.V[0] == 2 && r.value.V[1] == 3 && r.value.V[VF] == 1
      && r.value.pc == 0x206
  {
    ExampleLoaded();
    var m0 := LoadRom(Init(), ExampleRom).value;
    var m1 := m0.(pc := 0x202, V := m0.V[0 := 5]);
    assert Step(m0, keys, rnd) == Ok(m1) by {
      assert Encode(LdByte(0, 5)) == 0x6005;
      StepRunsStoredInstruction(m0, LdByte(0, 5), keys, rnd);
    }
    var m2 := m1.(pc := 0x204, V := m1.V[1 := 3]);
    assert Step(m1, keys, rnd) == Ok(m2) by {
      assert Encode(LdByte(1, 3)) == 0x6103;
      StepRunsStoredInstruction(m1, LdByte(1, 3), keys, rnd);
    }
    var m3 := m2.(pc := 0x206, V := m2.V[VF := 1][0 := 2]);
    assert Step(m2, keys, rnd) == Ok(m3) by {
      assert Encode(SubReg(0, 1)) == 0x8015;
      StepRunsStoredInstruction(m2, SubReg(0, 1), keys, rnd);
    }
    assert Steps(m0, keys, rnd, 3) == Ok(m3) by {
      assert Steps(m2, keys, rnd, 1) == Ok(m3);
      assert Steps(m1, keys, rnd, 2) == Ok(m3);
    }
  }
}
