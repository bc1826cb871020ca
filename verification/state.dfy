/**
 The state of a CHIP-8 interpreter (chip8/base.py, `CHIP8Interpreter.__init__`):
 4096 memory cells with the hexadecimal font at 0..79, sixteen `V` registers,
 the address register `I`, the program counter, the call stack, a 64 x 32
 display, the delay and sound timers and the `drawing` flag.

 Every number here is a Python integer in the interpreter, so every number here
 is an `int`: nothing bounds a register, a memory cell, `I` or the program
 counter except the operations that mask them explicitly.
 */
module State {

  const MemorySize := 4096
  const ProgramStart := 0x200
  const RegisterCount := 16
  const Width := 64
  const Height := 32
  const DisplaySize := 2048
  const GlyphSize := 5

  /** The flag register VF. */
  const VF := 0xF

  type Memory = s: seq<int> | |s| == MemorySize witness seq(MemorySize, a => 0)
  type Registers = s: seq<int> | |s| == RegisterCount witness seq(RegisterCount, r => 0)
  type Display = s: seq<int> | |s| == DisplaySize witness seq(DisplaySize, c => 0)

  /** Sixteen glyphs, 0 to F, five rows of eight pixels each. */
  const Font: seq<int> := [
    0xF0, 0x90, 0x90, 0x90, 0xF0,
    0x20, 0x60, 0x20, 0x20, 0x70,
    0xF0, 0x10, 0xF0, 0x80, 0xF0,
    0xF0, 0x10, 0xF0, 0x10, 0xF0,
    0x90, 0x90, 0xF0, 0x10, 0x10,
    0xF0, 0x80, 0xF0, 0x10, 0xF0,
    0xF0, 0x80, 0xF0, 0x90, 0xF0,
    0xF0, 0x10, 0x20, 0x40, 0x40,
    0xF0, 0x90, 0xF0, 0x90, 0xF0,
    0xF0, 0x90, 0xF0, 0x10, 0xF0,
    0xF0, 0x90, 0xF0, 0x90, 0x90,
    0xE0, 0x90, 0xE0, 0x90, 0xE0,
    0xF0, 0x80, 0x80, 0x80, 0xF0,
    0xE0, 0x90, 0x90, 0x90, 0xE0,
    0xF0, 0x80, 0xF0, 0x80, 0xF0,
    0xF0, 0x80, 0xF0, 0x80, 0x80
  ]

  /** Why a run stops: a Python `IndexError` on a memory list or on the call
      stack, or a dispatch that re-enters itself without end (which CPython
      ends with a `RecursionError`). */
  datatype Fault = MemoryFault(index: int) | StackUnderflow | Diverges

  datatype Result<+T> = Ok(value: T) | Err(fault: Fault) {
    predicate IsFailure() { Err? }

    function PropagateFailure<U>(): Result<U>
      requires Err?
    {
      Err(fault)
    }

    function Extract(): T
      requires Ok?
    {
      value
    }
  }

  datatype Machine = Machine(
    memory: Memory,
    V: Registers,
    I: int,
    pc: int,
    stack: seq<int>,     // top of the stack is the last element
    display: Display,
    delay: int,
    sound: int,
    drawing: bool)

  predicate Monochrome(d: seq<int>)
  {
    forall c :: 0 <= c < |d| ==> d[c] == 0 || d[c] == 1
  }

  /** `[0] * 64 * 32`. */
  function Blank(): (d: Display)
    ensures forall c :: 0 <= c < DisplaySize ==> d[c] == 0
  {
    seq(DisplaySize, c => 0)
  }

  /** The machine as the constructor leaves it. */
  function Init(): (m: Machine)
    ensures forall a :: 0 <= a < |Font| ==> m.memory[a] == Font[a]
    ensures forall a :: |Font| <= a < MemorySize ==> m.memory[a] == 0
    ensures forall r :: 0 <= r < RegisterCount ==> m.V[r] == 0
    ensures m.pc == ProgramStart && m.I == 0 && m.stack == []
    ensures Monochrome(m.display) && forall c :: 0 <= c < DisplaySize ==> m.display[c] == 0
    ensures m.delay == 0 && m.sound == 0 && !m.drawing
  {
    Machine(
      seq(MemorySize, a => if 0 <= a < |Font| then Font[a] else 0),
      seq(RegisterCount, r => 0),
      0, ProgramStart, [], Blank(), 0, 0, false)
  }

  // ---------------------------------------------------------------------------
  // Memory access with Python list indexing
  // ---------------------------------------------------------------------------

  /** A Python list of 4096 cells accepts the indices -4096..4095. */
  predicate InBounds(i: int)
  {
    -MemorySize <= i < MemorySize
  }

  /** The cell a Python index denotes: negative indices count from the end. */
  function Slot(i: int): (a: nat)
    requires InBounds(i)
    ensures a < MemorySize
    ensures (a - i) % MemorySize == 0
  {
    if i < 0 then i + MemorySize else i
  }

  /** `InBounds(base + k)` for every `k < n`. */
  predicate RangeInBounds(base: int, n: nat)
  {
    n == 0 || (InBounds(base) && InBounds(base + n - 1))
  }

  /** Some in-bounds index `base + k`, `k < n`, denotes cell `a`: either
      `base + k == a` or `base + k == a - 4096`. */
  predicate Covers(base: int, n: nat, a: int)
  {
    0 <= a < MemorySize && (0 <= a - base < n || 0 <= a - MemorySize - base < n)
  }

  function Read(mem: Memory, i: int): (r: Result<int>)
    ensures r.Ok? <==> InBounds(i)
    ensures r.Ok? ==> r.value == mem[Slot(i)]
  {
    if InBounds(i) then Ok(mem[Slot(i)]) else Err(MemoryFault(i))
  }

  /** `[mem[base + k] for k in range(n)]`. */
  function ReadRange(mem: Memory, base: int, n: nat): (r: Result<seq<int>>)
    ensures r.Ok? <==> RangeInBounds(base, n)
    ensures r.Ok? ==> |r.value| == n
    ensures r.Ok? ==> forall k :: 0 <= k < n ==> r.value[k] == mem[Slot(base + k)]
  {
    if n == 0 then Ok([])
    else
      var front :- ReadRange(mem, base, n - 1);
      var last :- Read(mem, base + n - 1);
      Ok(front + [last])
  }

  /** `mem[base + k] = vals[k]` for `k` from 0 upwards; the first index out of
      range stops the writes with a fault. */
  function WriteRange(mem: Memory, base: int, vals: seq<int>): (r: Result<Memory>)
    ensures r.Ok? <==> RangeInBounds(base, |vals|)
    ensures r.Ok? && |vals| <= MemorySize ==>
              forall k :: 0 <= k < |vals| ==> r.value[Slot(base + k)] == vals[k]
    ensures r.Ok? ==> forall a :: 0 <= a < MemorySize && !Covers(base, |vals|, a) ==> r.value[a] == mem[a]
  {
    if |vals| == 0 then Ok(mem)
    else
      var n := |vals| - 1;
      var front :- WriteRange(mem, base, vals[..n]);
      if InBounds(base + n) then
        Ok(front[Slot(base + n) := vals[n]])
      else
        Err(MemoryFault(base + n))
  }

  /** Reading back a range just written returns what was written. */
  lemma ReadAfterWrite(mem: Memory, base: int, vals: seq<int>)
    requires WriteRange(mem, base, vals).Ok? && |vals| <= MemorySize
    ensures ReadRange(WriteRange(mem, base, vals).value, base, |vals|) == Ok(vals)
  {
    var back := ReadRange(WriteRange(mem, base, vals).value, base, |vals|);
    assert back.Ok?;
    assert back.value == vals;
  }

  /** `load_rom` minus the file reading: byte `k` of the image goes to
      `0x200 + k`; an image that does not fit faults on the first byte past
      the end of memory. */
  function LoadRom(m: Machine, rom: seq<int>): (r: Result<Machine>)
    ensures r.Ok? <==> ProgramStart + |rom| <= MemorySize
    ensures r.Ok? ==> forall k :: 0 <= k < |rom| ==> r.value.memory[ProgramStart + k] == rom[k]
    ensures r.Ok? ==> forall a :: 0 <= a < ProgramStart ==> r.value.memory[a] == m.memory[a]
    ensures r.Ok? ==> forall a :: ProgramStart + |rom| <= a < MemorySize ==> r.value.memory[a] == m.memory[a]
    ensures r.Ok? ==> r.value == m.(memory := r.value.memory)
  {
    var mem :- WriteRange(m.memory, ProgramStart, rom);
    Ok(m.(memory := mem))
  }
}
