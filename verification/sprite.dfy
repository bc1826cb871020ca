/**
 Sprite drawing (chip8/base.py, `_Dxyn`). A sprite is up to fifteen rows of
 eight pixels, one memory cell per row, most significant bit leftmost. Each set
 bit flips one display cell; the column wraps at 64 and the row at 32. The
 collision flag is raised when a flipped cell held 1.

 The handler walks the sprite: rows in order, bits left to right. `Cells`
 lists the cells it visits in that order and `XorCells` applies the flips one
 at a time. `Lit` is the other view, from the display: for a cell it names the
 one sprite bit that can cover it. `DrawSpec` proves that the walk flips
 exactly the lit cells, and raises the flag exactly when one of them was 1.
 */
module Sprite {
  import Bits
  import opened State

  const SpriteWidth := 8

  type Cell = i: int | 0 <= i < DisplaySize

  /** The display index the handler computes for bit `c` of sprite row `r`
      drawn at (`x`, `y`). */
  function CellIndex(x: int, y: int, c: int, r: int): Cell
  {
    ((x + c) % Width + (y + r) % Height * Width) % DisplaySize
  }

  /** The sprite column and row that land on cell `a`. */
  function ColOf(x: int, a: Cell): nat { (a % Width - x) % Width }
  function RowOf(y: int, a: Cell): nat { (a / Width - y) % Height }

  /** `pixel & (0x80 >> c)`, tested for nonzero. */
  predicate SpriteBit(pixel: int, c: nat)
    requires c < SpriteWidth
  {
    Bits.And(pixel, 0x80 / Bits.Pow2(c)) != 0
  }

  /** The probe `0x80 >> c` selects bit `7 - c`, so a sprite row is read most
      significant bit first, for negative and oversized cells too. */
  lemma SpriteBitIsBit(pixel: int, c: nat)
    requires c < SpriteWidth
    ensures SpriteBit(pixel, c) <==> (pixel / Bits.Pow2(7 - c)) % 2 == 1
  {
    var k := 7 - c;
    ProbeIsPower(c);
    Bits.AndSplit(pixel, 1, 0, k);
    Bits.AndLow(pixel / Bits.Pow2(k), 1);
    Bits.AndLow(pixel % Bits.Pow2(k), 0);
    Bits.Pow2Values();
  }

  lemma ProbeIsPower(c: nat)
    requires c < SpriteWidth
    ensures 0x80 / Bits.Pow2(c) == 1 * Bits.Pow2(7 - c) + 0
  {
    Bits.Pow2Values();
    if c == 0 {
    } else if c == 1 {
    } else if c == 2 {
      assert Bits.Pow2(2) == 4 && Bits.Pow2(5) == 32;
    } else if c == 3 {
      assert Bits.Pow2(3) == 8 && Bits.Pow2(4) == 16;
    } else if c == 4 {
      assert Bits.Pow2(3) == 8 && Bits.Pow2(4) == 16;
    } else if c == 5 {
      assert Bits.Pow2(2) == 4 && Bits.Pow2(5) == 32;
    } else if c == 6 {
      assert Bits.Pow2(6) == 64;
    } else {
    }
  }

  // ---------------------------------------------------------------------------
  // Cell coordinates
  // ---------------------------------------------------------------------------

  lemma ModShift(a: int, k: int, m: int)
    requires m > 0
    ensures (a + k * m) % m == a % m
  {
    Bits.DivModUnique(a + k * m, m, a / m + k, a % m);
  }

  /** A cell is its column plus 64 times its row. */
  lemma CellParts(u: int, v: int)
    requires 0 <= u < Width && 0 <= v < Height
    ensures (u + v * Width) % DisplaySize == u + v * Width
    ensures (u + v * Width) % Width == u && (u + v * Width) / Width == v
  {
    Bits.DivModUnique(u + v * Width, Width, v, u);
  }

  /** The cell of sprite bit (`c`, `r`) lies in sprite column `c` and sprite
      row `r`, counted modulo the display size. */
  lemma CellCoords(x: int, y: int, c: int, r: int)
    ensures ColOf(x, CellIndex(x, y, c, r)) == c % Width
    ensures RowOf(y, CellIndex(x, y, c, r)) == r % Height
  {
    var u, v := (x + c) % Width, (y + r) % Height;
    CellParts(u, v);
    ModShift(c, -((x + c) / Width), Width);
    assert u - x == c + (-((x + c) / Width)) * Width;
    ModShift(r, -((y + r) / Height), Height);
    assert v - y == r + (-((y + r) / Height)) * Height;
  }

  /** Every cell is the cell of its own sprite coordinates. */
  lemma CellOfCoords(x: int, y: int, a: Cell)
    ensures CellIndex(x, y, ColOf(x, a), RowOf(y, a)) == a
  {
    var c, r := ColOf(x, a), RowOf(y, a);
    ModShift(a % Width, (a % Width - x) / Width, Width);
    assert x + c == a % Width + (-((a % Width - x) / Width)) * Width;
    ModShift(a % Width, -((a % Width - x) / Width), Width);
    ModShift(a / Width, -((a / Width - y) / Height), Height);
    assert y + r == a / Width + (-((a / Width - y) / Height)) * Height;
    CellParts(a % Width, a / Width);
  }

  /** Sprite bit (`c`, `r`), `c < 64` and `r < 32`, lands on cell `a` exactly
      when `a`'s sprite coordinates are (`c`, `r`). */
  lemma CellIndexInverse(x: int, y: int, c: int, r: int, a: Cell)
    requires 0 <= c < Width && 0 <= r < Height
    ensures CellIndex(x, y, c, r) == a <==> ColOf(x, a) == c && RowOf(y, a) == r
  {
    CellCoords(x, y, c, r);
    CellOfCoords(x, y, a);
  }

  // ---------------------------------------------------------------------------
  // The walk over the sprite
  // ---------------------------------------------------------------------------

  predicate NoDup<T(==)>(s: seq<T>)
  {
    forall i, j :: 0 <= i < j < |s| ==> s[i] != s[j]
  }

  /** The cells the handler flips for sprite row `r` with cell value `pixel`,
      bits `0 .. k-1`, in the order it flips them. */
  function RowCells(pixel: int, x: int, y: int, r: int, k: nat): seq<Cell>
    requires k <= SpriteWidth
  {
    if k == 0 then []
    else
      RowCells(pixel, x, y, r, k - 1)
      + (if SpriteBit(pixel, k - 1) then [CellIndex(x, y, k - 1, r)] else [])
  }

  /** The cells the handler flips for the whole sprite, in order. */
  function Cells(rows: seq<int>, x: int, y: int): seq<Cell>
  {
    if |rows| == 0 then []
    else Cells(rows[..|rows| - 1], x, y) + RowCells(rows[|rows| - 1], x, y, |rows| - 1, SpriteWidth)
  }

  /** Cell `a` is covered by a set bit of the sprite `rows` drawn at (`x`, `y`). */
  predicate Lit(rows: seq<int>, x: int, y: int, a: Cell)
  {
    ColOf(x, a) < SpriteWidth && RowOf(y, a) < |rows| && SpriteBit(rows[RowOf(y, a)], ColOf(x, a))
  }

  lemma {:induction false} RowCellsSpec(pixel: int, x: int, y: int, r: int, k: nat)
    requires k <= SpriteWidth && 0 <= r < Height
    ensures forall a: Cell :: a in RowCells(pixel, x, y, r, k) <==>
              RowOf(y, a) == r && ColOf(x, a) < k && SpriteBit(pixel, ColOf(x, a))
    ensures NoDup(RowCells(pixel, x, y, r, k))
  {
    if k > 0 {
      RowCellsSpec(pixel, x, y, r, k - 1);
      var front := RowCells(pixel, x, y, r, k - 1);
      var cell := CellIndex(x, y, k - 1, r);
      CellCoords(x, y, k - 1, r);
      forall a: Cell
        ensures ColOf(x, a) == k - 1 && RowOf(y, a) == r ==> a == cell
      {
        CellIndexInverse(x, y, k - 1, r, a);
      }
      assert cell !in front;
    }
  }

  lemma {:induction false} CellsSpec(rows: seq<int>, x: int, y: int)
    requires |rows| <= Height
    ensures forall a: Cell :: a in Cells(rows, x, y) <==> Lit(rows, x, y, a)
    ensures NoDup(Cells(rows, x, y))
  {
    if |rows| > 0 {
      var n := |rows| - 1;
      var front := rows[..n];
      CellsSpec(front, x, y);
      RowCellsSpec(rows[n], x, y, n, SpriteWidth);
      var before, last := Cells(front, x, y), RowCells(rows[n], x, y, n, SpriteWidth);
      assert Cells(rows, x, y) == before + last;
      forall a: Cell
        ensures a in before + last <==> Lit(rows, x, y, a)
      {
        if RowOf(y, a) < n {
          assert rows[RowOf(y, a)] == front[RowOf(y, a)];
        }
      }
      forall i, j | 0 <= i < |before| && 0 <= j < |last|
        ensures before[i] != last[j]
      {
        assert before[i] in before && last[j] in last;
      }
    }
  }

  // ---------------------------------------------------------------------------
  // Flipping the cells
  // ---------------------------------------------------------------------------

  /** `if display[idx] == 1: VF = 1` followed by `display[idx] ^= 1`, for each
      cell in turn. The second component is whether the flag was raised. */
  function XorCells(d: Display, cells: seq<Cell>): (Display, bool)
  {
    if |cells| == 0 then (d, false)
    else
      var (d1, hit) := XorCells(d, cells[..|cells| - 1]);
      var a := cells[|cells| - 1];
      (d1[a := Bits.Xor(d1[a], 1)], hit || d1[a] == 1)
  }

  /** Flipping distinct cells one by one flips each of them once, and the flag
      reports whether any of them held 1 before the walk. */
  lemma {:induction false} XorCellsSpec(d: Display, cells: seq<Cell>)
    requires NoDup(cells)
    ensures forall a: Cell :: XorCells(d, cells).0[a] == if a in cells then Bits.Xor(d[a], 1) else d[a]
    ensures XorCells(d, cells).1 <==> exists a: Cell :: a in cells && d[a] == 1
  {
    if |cells| > 0 {
      var n := |cells| - 1;
      var front := cells[..n];
      XorCellsSpec(d, front);
      var last := cells[n];
      assert last !in front;
      assert forall a: Cell :: a in cells <==> a in front || a == last;
    }
  }

  /** The display and the flag `_Dxyn` leaves, for the sprite rows read from
      memory and the masked coordinates. */
  function Draw(d: Display, rows: seq<int>, x: int, y: int): (Display, bool)
  {
    XorCells(d, Cells(rows, x, y))
  }

  /** Drawing flips exactly the lit cells and leaves every other cell alone;
      the flag is raised exactly when a lit cell held 1. On a display of 0s and
      1s, flipping is `1 - cell` and the display stays one of 0s and 1s. */
  lemma DrawSpec(d: Display, rows: seq<int>, x: int, y: int)
    requires |rows| <= Height
    ensures forall a: Cell :: Draw(d, rows, x, y).0[a] == if Lit(rows, x, y, a) then Bits.Xor(d[a], 1) else d[a]
    ensures Draw(d, rows, x, y).1 <==> exists a: Cell :: Lit(rows, x, y, a) && d[a] == 1
    ensures Monochrome(d) ==> Monochrome(Draw(d, rows, x, y).0)
    ensures Monochrome(d) ==>
              forall a: Cell :: Draw(d, rows, x, y).0[a] == if Lit(rows, x, y, a) then 1 - d[a] else d[a]
  {
    CellsSpec(rows, x, y);
    XorCellsSpec(d, Cells(rows, x, y));
    if Monochrome(d) {
      forall a: Cell
        ensures Draw(d, rows, x, y).0[a] == if Lit(rows, x, y, a) then 1 - d[a] else d[a]
      {
        Bits.XorOneFlips(d[a]);
      }
    }
  }
}
