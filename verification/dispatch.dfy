/**
 The dispatch the interpreter performs (chip8/base.py, `OPS_MAPPING`,
 `_process_op_code`, `_run_instruction` and the four family sub-dispatchers
 `_0000`, `_8000`, `_E000`, `_F000`): look the key `op & 0xF000` up in a table
 whose missing keys fall to `unknown_op_code`; a sub-dispatcher masks the word
 again and looks the new key up in the same table.

 A lookup that lands on a sub-dispatcher again is a Python call that may not
 return, so the walk carries `fuel`, one unit per nested `_run_instruction`.
 `DispatchAgrees` shows that one unit is always enough except for the words
 that never return, which `DivergingDispatch` shows exhaust any amount.
 */
module Dispatch {
  import Bits
  import opened Decoder

  /** The fields as the handlers compute them: `vx`, `vy` and the masks. */
  datatype Fields = Fields(x: Nibble, y: Nibble, n: Nibble, kk: Byte, nnn: Address)

  function SourceFields(w: int): (f: Fields)
    ensures f == Fields(X(w), Y(w), N(w), Kk(w), Nnn(w))
  {
    MaskFields(w);
    Fields(
      Bits.And(w, 0x0F00) / 0x100,
      Bits.And(w, 0x00F0) / 0x10,
      Bits.And(w, 0x000F),
      Bits.And(w, 0x00FF),
      Bits.And(w, 0x0FFF))
  }

  datatype Handler =
    | Family0              // `_0000`: re-dispatch on `op & 0xF0FF`; 0x0000 is SYS
    | Family8              // `_8000`: re-dispatch on `op & 0xF00F`; 0x8000 is LD Vx, Vy
    | FamilyE              // `_E000`: re-dispatch on `op & 0xF0FF`
    | FamilyF              // `_F000`: re-dispatch on `op & 0xF0FF`
    | Leaf(make: Fields -> Instr)

  /** `OPS_MAPPING`, a `defaultdict` whose default is `unknown_op_code`. */
  function Table(key: int): Handler
  {
    match key
    case 0x0000 => Family0
    case 0x00E0 => Leaf((f: Fields) => Cls)
    case 0x00EE => Leaf((f: Fields) => Ret)
    case 0x1000 => Leaf((f: Fields) => Jp(f.nnn))
    case 0x2000 => Leaf((f: Fields) => Call(f.nnn))
    case 0x3000 => Leaf((f: Fields) => SeByte(f.x, f.kk))
    case 0x4000 => Leaf((f: Fields) => SneByte(f.x, f.kk))
    case 0x5000 => Leaf((f: Fields) => SeReg(f.x, f.y))
    case 0x6000 => Leaf((f: Fields) => LdByte(f.x, f.kk))
    case 0x7000 => Leaf((f: Fields) => AddByte(f.x, f.kk))
    case 0x8000 => Family8
    case 0x8001 => Leaf((f: Fields) => OrReg(f.x, f.y))
    case 0x8002 => Leaf((f: Fields) => AndReg(f.x, f.y))
    case 0x8003 => Leaf((f: Fields) => XorReg(f.x, f.y))
    case 0x8004 => Leaf((f: Fields) => AddReg(f.x, f.y))
    case 0x8005 => Leaf((f: Fields) => SubReg(f.x, f.y))
    case 0x8006 => Leaf((f: Fields) => Shr(f.x, f.y))
    case 0x8007 => Leaf((f: Fields) => SubnReg(f.x, f.y))
    case 0x800E => Leaf((f: Fields) => Shl(f.x, f.y))
    case 0x9000 => Leaf((f: Fields) => SneReg(f.x, f.y))
    case 0xA000 => Leaf((f: Fields) => LdI(f.nnn))
    case 0xB000 => Leaf((f: Fields) => JpV0(f.nnn))
    case 0xC000 => Leaf((f: Fields) => Rnd(f.x, f.kk))
    case 0xD000 => Leaf((f: Fields) => Drw(f.x, f.y, f.n))
    case 0xE000 => FamilyE
    case 0xE09E => Leaf((f: Fields) => Skp(f.x))
    case 0xE0A1 => Leaf((f: Fields) => Sknp(f.x))
    case 0xF000 => FamilyF
    case 0xF007 => Leaf((f: Fields) => LdVxDt(f.x))
    case 0xF00A => Leaf((f: Fields) => LdVxK(f.x))
    case 0xF015 => Leaf((f: Fields) => LdDtVx(f.x))
    case 0xF018 => Leaf((f: Fields) => LdStVx(f.x))
    case 0xF01E => Leaf((f: Fields) => AddI(f.x))
    case 0xF029 => Leaf((f: Fields) => LdF(f.x))
    case 0xF033 => Leaf((f: Fields) => LdB(f.x))
    case 0xF055 => Leaf((f: Fields) => StoreRegs(f.x))
    case 0xF065 => Leaf((f: Fields) => LoadRegs(f.x))
    case _ => Leaf((f: Fields) => Unknown)
  }

  /** `_run_instruction(key)` for the word `w`, allowing `fuel` nested calls. */
  function Run(key: int, w: int, fuel: nat): Instr
    decreases fuel
  {
    match Table(key)
    case Family0 =>
      var sub := Bits.And(w, 0xF0FF);
      if sub == 0x0000 then Sys(SourceFields(w).nnn)
      else if fuel == 0 then Diverge
      else Run(sub, w, fuel - 1)
    case Family8 =>
      var sub := Bits.And(w, 0xF00F);
      if sub == 0x8000 then LdReg(SourceFields(w).x, SourceFields(w).y)
      else if fuel == 0 then Diverge
      else Run(sub, w, fuel - 1)
    case FamilyE =>
      if fuel == 0 then Diverge else Run(Bits.And(w, 0xF0FF), w, fuel - 1)
    case FamilyF =>
      if fuel == 0 then Diverge else Run(Bits.And(w, 0xF0FF), w, fuel - 1)
    case Leaf(make) => make(SourceFields(w))
  }

  /** `_process_op_code`: dispatch on the family key `op & 0xF000`. */
  function Dispatch(w: int, fuel: nat): Instr
  {
    Run(Bits.And(w, 0xF000), w, fuel)
  }

  /** A sub-dispatcher whose re-masked key is its own key calls itself again
      for as long as there is fuel. */
  lemma {:induction false} SelfDispatchLoops(key: int, w: int, fuel: nat)
    requires Table(key) == FamilyE || Table(key) == FamilyF
    requires Bits.And(w, 0xF0FF) == key
    ensures Run(key, w, fuel) == Diverge
    decreases fuel
  {
    if fuel > 0 {
      SelfDispatchLoops(key, w, fuel - 1);
    }
  }

  /** The words `Decode` calls diverging never reach a handler, however deep
      the recursion is allowed to go. */
  lemma DivergingDispatch(w: int, fuel: nat)
    requires Decode(w) == Diverge
    ensures Dispatch(w, fuel) == Diverge
  {
    MaskFields(w);
    FieldParts(w);
    var key := Family(w) * 0x1000;
    assert Family(w) == 0xE || Family(w) == 0xF;
    SelfDispatchLoops(key, w, fuel);
  }

  /** With one nested call allowed, the table walk reaches the instruction
      `Decode` names, for every word. */
  lemma DispatchAgrees(w: int, fuel: nat)
    requires fuel >= 1
    ensures Dispatch(w, fuel) == Decode(w)
  {
    MaskFields(w);
    FieldParts(w);
    if Decode(w) == Diverge {
      DivergingDispatch(w, fuel);
    } else {
      var f := Family(w);
      if f == 0x0 {
        FamilyZero(w, fuel);
      } else if f == 0x8 {
        FamilyEight(w, fuel);
      } else if f == 0xE {
        FamilyFourteen(w, fuel);
      } else if f == 0xF {
        FamilyFifteen(w, fuel);
      } else {
        SingleEntryFamily(w, fuel);
      }
    }
  }

  /** A key that names a handler runs that handler on the source fields. */
  lemma LeafRuns(key: int, w: int, fuel: nat)
    requires Table(key).Leaf?
    ensures Run(key, w, fuel) == Table(key).make(SourceFields(w))
  {
  }

  lemma SingleEntryFamily(w: int, fuel: nat)
    requires Family(w) !in {0x0, 0x8, 0xE, 0xF}
    ensures Dispatch(w, fuel) == Decode(w)
  {
    MaskFields(w);
    FieldParts(w);
    LeafRuns(Family(w) * 0x1000, w, fuel);
  }

  lemma FamilyZero(w: int, fuel: nat)
    requires Family(w) == 0x0 && fuel >= 1
    ensures Dispatch(w, fuel) == Decode(w)
  {
    var kk := Kk(w);
    assert Dispatch(w, fuel) == Run(0, w, fuel) by {
      FamilyKeys(w);
    }
    if kk == 0 {
      assert Run(0, w, fuel) == Sys(Nnn(w)) by {
        FamilyKeys(w);
      }
      assert Decode(w) == Sys(Nnn(w)) by {
        FieldParts(w);
      }
    } else {
      assert Run(0, w, fuel) == Run(kk, w, fuel - 1) by {
        FamilyKeys(w);
      }
      FamilyZeroLeaf(w);
      LeafRuns(kk, w, fuel - 1);
    }
  }

  /** The handler the key of a family 0 word with a nonzero low byte names. */
  lemma FamilyZeroLeaf(w: int)
    requires Family(w) == 0x0 && Kk(w) != 0
    ensures Table(Kk(w)).Leaf?
    ensures Table(Kk(w)).make(SourceFields(w)) == Decode(w)
  {
    FieldParts(w);
    assert Decode(w) == DecodeNibbles(0x0, X(w), Y(w), N(w));
  }

  lemma FamilyEight(w: int, fuel: nat)
    requires Family(w) == 0x8 && fuel >= 1
    ensures Dispatch(w, fuel) == Decode(w)
  {
    var key := 0x8000 + N(w);
    assert Dispatch(w, fuel) == Run(0x8000, w, fuel) by {
      FamilyKeys(w);
    }
    if key == 0x8000 {
      assert Run(0x8000, w, fuel) == LdReg(X(w), Y(w)) by {
        FamilyKeys(w);
      }
    } else {
      assert Run(0x8000, w, fuel) == Run(key, w, fuel - 1) by {
        FamilyKeys(w);
      }
      FamilyEightLeaf(w);
      LeafRuns(key, w, fuel - 1);
    }
  }

  /** The handler the key of a family 8 word with a nonzero low nibble names. */
  lemma FamilyEightLeaf(w: int)
    requires Family(w) == 0x8 && N(w) != 0
    ensures Table(0x8000 + N(w)).Leaf?
    ensures Table(0x8000 + N(w)).make(SourceFields(w)) == Decode(w)
  {
    assert Decode(w) == DecodeNibbles(0x8, X(w), Y(w), N(w));
  }

  lemma FamilyFourteen(w: int, fuel: nat)
    requires Family(w) == 0xE && Decode(w) != Diverge && fuel >= 1
    ensures Dispatch(w, fuel) == Decode(w)
  {
    var key := 0xE000 + Kk(w);
    assert Dispatch(w, fuel) == Run(key, w, fuel - 1) by {
      FamilyKeys(w);
      assert Dispatch(w, fuel) == Run(0xE000, w, fuel);
    }
    FamilyFourteenLeaf(w);
    LeafRuns(key, w, fuel - 1);
  }

  /** The handler the key of a non-diverging family E word names. */
  lemma FamilyFourteenLeaf(w: int)
    requires Family(w) == 0xE && Decode(w) != Diverge
    ensures Table(0xE000 + Kk(w)).Leaf?
    ensures Table(0xE000 + Kk(w)).make(SourceFields(w)) == Decode(w)
  {
    FieldParts(w);
    assert Decode(w) == DecodeNibbles(0xE, X(w), Y(w), N(w));
  }

  lemma FamilyFifteen(w: int, fuel: nat)
    requires Family(w) == 0xF && Decode(w) != Diverge && fuel >= 1
    ensures Dispatch(w, fuel) == Decode(w)
  {
    FamilyFifteenLeaf(w);
    FamilyFifteenRoute(w, fuel);
    LeafRuns(0xF000 + Kk(w), w, fuel - 1);
  }

  /** A family F word goes through `_F000` to the key `op & 0xF0FF`. */
  lemma FamilyFifteenRoute(w: int, fuel: nat)
    requires Family(w) == 0xF && fuel >= 1
    ensures Dispatch(w, fuel) == Run(0xF000 + Kk(w), w, fuel - 1)
  {
    FamilyKeys(w);
    assert Dispatch(w, fuel) == Run(0xF000, w, fuel);
  }

  /** The handler the key of a non-diverging family F word names. */
  lemma FamilyFifteenLeaf(w: int)
    requires Family(w) == 0xF && Decode(w) != Diverge
    ensures Table(0xF000 + Kk(w)).Leaf?
    ensures Table(0xF000 + Kk(w)).make(SourceFields(w)) == Decode(w)
  {
    FieldParts(w);
    assert Decode(w) == DecodeNibbles(0xF, X(w), Y(w), N(w));
    FamilyFifteenEntry(X(w), Y(w), N(w));
  }

  /** The two keys a sub-dispatched word goes through. */
  lemma FamilyKeys(w: int)
    ensures Bits.And(w, 0xF000) == Family(w) * 0x1000
    ensures Bits.And(w, 0xF0FF) == Family(w) * 0x1000 + Kk(w)
    ensures Bits.And(w, 0xF00F) == Family(w) * 0x1000 + N(w)
  {
    MaskFields(w);
  }

  /** The table entry of a family F word with a nonzero low byte. */
  lemma FamilyFifteenEntry(x: Nibble, y: Nibble, n: Nibble)
    requires y * 0x10 + n != 0
    ensures var kk := y * 0x10 + n;
      Table(0xF000 + kk).Leaf?
      && Table(0xF000 + kk).make(Fields(x, y, n, kk, x * 0x100 + kk)) == DecodeNibbles(0xF, x, y, n)
  {
    var kk := y * 0x10 + n;
    if kk in {0x07, 0x0A, 0x15, 0x18, 0x1E} {
      TimerAndKeyEntries(x, y, n);
    } else if kk in {0x29, 0x33, 0x55, 0x65} {
      MemoryEntries(x, y, n);
    } else {
      UnmappedFamilyFifteen(x, y, n);
    }
  }

  lemma TimerAndKeyEntries(x: Nibble, y: Nibble, n: Nibble)
    requires y * 0x10 + n in {0x07, 0x0A, 0x15, 0x18, 0x1E}
    ensures var kk := y * 0x10 + n;
      Table(0xF000 + kk).Leaf?
      && Table(0xF000 + kk).make(Fields(x, y, n, kk, x * 0x100 + kk)) == DecodeNibbles(0xF, x, y, n)
  {
  }

  lemma MemoryEntries(x: Nibble, y: Nibble, n: Nibble)
    requires y * 0x10 + n in {0x29, 0x33, 0x55, 0x65}
    ensures var kk := y * 0x10 + n;
      Table(0xF000 + kk).Leaf?
      && Table(0xF000 + kk).make(Fields(x, y, n, kk, x * 0x100 + kk)) == DecodeNibbles(0xF, x, y, n)
  {
  }

  /** A nonzero low byte outside the table reaches `unknown_op_code`. */
  lemma UnmappedFamilyFifteen(x: Nibble, y: Nibble, n: Nibble)
    requires y * 0x10 + n !in {0x00, 0x07, 0x0A, 0x15, 0x18, 0x1E, 0x29, 0x33, 0x55, 0x65}
    ensures var kk := y * 0x10 + n;
      Table(0xF000 + kk).Leaf?
      && Table(0xF000 + kk).make(Fields(x, y, n, kk, x * 0x100 + kk)) == Unknown
      && DecodeNibbles(0xF, x, y, n) == Unknown
  {
  }
}
