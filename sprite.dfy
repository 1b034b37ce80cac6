/** The `DXYN` sprite draw of `Chip8::EmulateCycle`: an 8-pixel-wide sprite of
    up to 15 rows is XORed onto the 64x32 framebuffer with wraparound at both
    edges, and a collision is reported when a set sprite bit meets a cell
    that holds 1.

    `DrawPrefix` follows the nested row/column loop exactly: it is the state
    of the framebuffer and of the collision flag after the first `p`
    (row, column) pairs. `Covers` is an independent closed form, and the
    lemmas below show that the loop computes it. */
module Sprite {
  import opened Bits

  const WIDTH: nat := 64
  const HEIGHT: nat := 32
  const PIXELS: nat := 64 * 32

  /** `px + py * 64` with `px = (x + col) % 64` and `py = (y + row) % 32`. */
  function PixelIndex(x: Byte, y: Byte, row: nat, col: nat): (k: nat)
    ensures k < PIXELS
  {
    (x + col) % WIDTH + ((y + row) % HEIGHT) * WIDTH
  }

  /** Whether bit `p % 8` (counted from the most significant end) of sprite
      row `p / 8` is set. */
  predicate Lit(sprite: seq<Byte>, p: nat)
    requires p < 8 * |sprite|
  {
    SpriteBit(sprite[p / 8], p % 8)
  }

  datatype Drawn = Drawn(gfx: seq<Cell>, collision: bool)

  /** The framebuffer and the collision flag after the draw loop has handled
      the first `p` positions `row * 8 + col`, starting from `gfx` and a
      cleared flag. */
  function DrawPrefix(gfx: seq<Cell>, sprite: seq<Byte>, x: Byte, y: Byte, p: nat): (d: Drawn)
    requires |gfx| == PIXELS && p <= 8 * |sprite|
    ensures |d.gfx| == PIXELS
    decreases p
  {
    if p == 0 then Drawn(gfx, false)
    else
      var d := DrawPrefix(gfx, sprite, x, y, p - 1);
      var q := p - 1;
      if Lit(sprite, q) then
        var k := PixelIndex(x, y, q / 8, q % 8);
        Drawn(d.gfx[k := Flip(d.gfx[k])], d.collision || d.gfx[k] == 1)
      else d
  }

  /** The whole draw: every row of `sprite`, every column 0..7. */
  function DrawSprite(gfx: seq<Cell>, sprite: seq<Byte>, x: Byte, y: Byte): (d: Drawn)
    requires |gfx| == PIXELS
    ensures |d.gfx| == PIXELS
  {
    DrawPrefix(gfx, sprite, x, y, 8 * |sprite|)
  }

  /** One more iteration of the column loop, at sprite row `row` and column
      `col`. */
  lemma DrawPrefixNext(gfx: seq<Cell>, sprite: seq<Byte>, x: Byte, y: Byte, row: nat, col: nat)
    requires |gfx| == PIXELS && row < |sprite| && col < 8
    ensures
      var d := DrawPrefix(gfx, sprite, x, y, 8 * row + col);
      var k := PixelIndex(x, y, row, col);
      DrawPrefix(gfx, sprite, x, y, 8 * row + col + 1)
        == if SpriteBit(sprite[row], col) then Drawn(d.gfx[k := Flip(d.gfx[k])], d.collision || d.gfx[k] == 1)
           else d
  {
    assert (8 * row + col) / 8 == row && (8 * row + col) % 8 == col;
  }

  /** The sprite row that would land on screen row `k / 64`. */
  function RowOf(y: Byte, k: nat): nat
  {
    (k / WIDTH - y) % HEIGHT
  }

  /** The sprite column that would land on screen column `k % 64`. */
  function ColOf(x: Byte, k: nat): nat
  {
    (k % WIDTH - x) % WIDTH
  }

  /** Cell `k` is hit by a set bit of the sprite drawn at (x, y). */
  predicate Covers(sprite: seq<Byte>, x: Byte, y: Byte, k: nat)
  {
    RowOf(y, k) < |sprite| && ColOf(x, k) < 8 && Lit(sprite, RowOf(y, k) * 8 + ColOf(x, k))
  }

  /** Cell `k` is hit by a set bit among the first `p` positions. */
  predicate CoveredBefore(sprite: seq<Byte>, x: Byte, y: Byte, k: nat, p: nat)
  {
    Covers(sprite, x, y, k) && RowOf(y, k) * 8 + ColOf(x, k) < p
  }

  /** Every cell is 0 or 1. */
  predicate Binary(gfx: seq<Cell>)
  {
    forall k | 0 <= k < |gfx| :: gfx[k] == 0 || gfx[k] == 1
  }

  /** Remainders by the screen width and height are determined by
      quotient and remainder. */
  lemma Mod64(n: int, q: int, r: int)
    requires 0 <= r < 64 && n == q * 64 + r
    ensures n % 64 == r
  {
  }

  lemma Mod32(n: int, q: int, r: int)
    requires 0 <= r < 32 && n == q * 32 + r
    ensures n % 32 == r
  {
  }

  lemma ModBack(a: int, c: int, m: int)
    requires m == WIDTH || m == HEIGHT
    requires 0 <= a && 0 <= c < m
    ensures ((a + c) % m - a) % m == c
  {
    var t := (a + c) % m;
    var q := (a + c) / m;
    if m == WIDTH {
      assert a + c == 64 * q + t;
      Mod64(t - a, -q, c);
    } else {
      assert a + c == 32 * q + t;
      Mod32(t - a, -q, c);
    }
  }

  lemma ModForth(a: int, t: int, m: int)
    requires m == WIDTH || m == HEIGHT
    requires 0 <= a && 0 <= t < m
    ensures (a + (t - a) % m) % m == t
  {
    var u := (t - a) % m;
    var q := (t - a) / m;
    if m == WIDTH {
      assert t - a == 64 * q + u;
      Mod64(a + u, -q, t);
    } else {
      assert t - a == 32 * q + u;
      Mod32(a + u, -q, t);
    }
  }

  /** The cell that bit (row, col) lands on gives back that row and column. */
  lemma PixelIndexInverse(x: Byte, y: Byte, row: nat, col: nat)
    requires row < HEIGHT && col < WIDTH
    ensures RowOf(y, PixelIndex(x, y, row, col)) == row
    ensures ColOf(x, PixelIndex(x, y, row, col)) == col
  {
    var px := (x + col) % WIDTH;
    var py := (y + row) % HEIGHT;
    var k := PixelIndex(x, y, row, col);
    assert k == py * WIDTH + px;
    assert k / WIDTH == py && k % WIDTH == px;
    ModBack(x, col, WIDTH);
    ModBack(y, row, HEIGHT);
  }

  /** Every cell is the landing cell of its own row and column. */
  lemma PixelIndexOf(x: Byte, y: Byte, k: nat)
    requires k < PIXELS
    ensures RowOf(y, k) < HEIGHT && ColOf(x, k) < WIDTH
    ensures PixelIndex(x, y, RowOf(y, k), ColOf(x, k)) == k
  {
    ModForth(x, k % WIDTH, WIDTH);
    ModForth(y, k / WIDTH, HEIGHT);
    assert k == (k / WIDTH) * WIDTH + k % WIDTH;
  }

  /** Position `p - 1` adds exactly its own landing cell, when its bit is
      set, to the cells covered so far; that cell was not covered before,
      because different positions never land on the same cell (the sprite
      is at most 8 wide and 32 tall). */
  lemma CoverStep(sprite: seq<Byte>, x: Byte, y: Byte, p: nat, k: nat)
    requires |sprite| <= HEIGHT && 0 < p <= 8 * |sprite| && k < PIXELS
    ensures CoveredBefore(sprite, x, y, k, p)
      <==> (CoveredBefore(sprite, x, y, k, p - 1)
           || (k == PixelIndex(x, y, (p - 1) / 8, (p - 1) % 8) && Lit(sprite, p - 1)))
    ensures k == PixelIndex(x, y, (p - 1) / 8, (p - 1) % 8) ==> !CoveredBefore(sprite, x, y, k, p - 1)
  {
    var q := p - 1;
    var row, col := q / 8, q % 8;
    PixelIndexInverse(x, y, row, col);
    PixelIndexOf(x, y, k);
    assert row * 8 + col == q;
  }

  /** The loop after `p` positions has flipped exactly the cells covered by
      those positions. */
  lemma {:induction false} DrawPrefixCells(gfx: seq<Cell>, sprite: seq<Byte>, x: Byte, y: Byte, p: nat)
    requires |gfx| == PIXELS && |sprite| <= HEIGHT && p <= 8 * |sprite|
    ensures forall k | 0 <= k < PIXELS ::
      DrawPrefix(gfx, sprite, x, y, p).gfx[k]
        == if CoveredBefore(sprite, x, y, k, p) then Flip(gfx[k]) else gfx[k]
  {
    if p > 0 {
      var q := p - 1;
      DrawPrefixCells(gfx, sprite, x, y, q);
      var before := DrawPrefix(gfx, sprite, x, y, q).gfx;
      var after := DrawPrefix(gfx, sprite, x, y, p).gfx;
      var k0 := PixelIndex(x, y, q / 8, q % 8);
      forall k | 0 <= k < PIXELS
        ensures after[k] == if CoveredBefore(sprite, x, y, k, p) then Flip(gfx[k]) else gfx[k]
      {
        CoverStep(sprite, x, y, p, k);
        if Lit(sprite, q) {
          assert after == before[k0 := Flip(before[k0])];
        } else {
          assert after == before;
        }
      }
    }
  }

  /** The loop after `p` positions has raised the flag exactly when one of
      the cells covered by those positions held 1 beforehand. */
  lemma {:induction false} DrawPrefixCollision(gfx: seq<Cell>, sprite: seq<Byte>, x: Byte, y: Byte, p: nat)
    requires |gfx| == PIXELS && |sprite| <= HEIGHT && p <= 8 * |sprite|
    ensures DrawPrefix(gfx, sprite, x, y, p).collision
      <==> exists k | 0 <= k < PIXELS :: CoveredBefore(sprite, x, y, k, p) && gfx[k] == 1
  {
    if p > 0 {
      var q := p - 1;
      DrawPrefixCollision(gfx, sprite, x, y, q);
      DrawPrefixCells(gfx, sprite, x, y, q);
      var k0 := PixelIndex(x, y, q / 8, q % 8);
      CoverStep(sprite, x, y, p, k0);
      forall k | 0 <= k < PIXELS
        ensures CoveredBefore(sprite, x, y, k, p)
          <==> CoveredBefore(sprite, x, y, k, q) || (k == k0 && Lit(sprite, q))
      {
        CoverStep(sprite, x, y, p, k);
      }
    }
  }

  /** The draw flips exactly the covered cells, and reports a collision
      exactly when some covered cell held 1. */
  lemma DrawSpriteEffect(gfx: seq<Cell>, sprite: seq<Byte>, x: Byte, y: Byte)
    requires |gfx| == PIXELS && |sprite| <= HEIGHT
    ensures forall k | 0 <= k < PIXELS ::
      DrawSprite(gfx, sprite, x, y).gfx[k] == if Covers(sprite, x, y, k) then Flip(gfx[k]) else gfx[k]
    ensures DrawSprite(gfx, sprite, x, y).collision
      <==> exists k | 0 <= k < PIXELS :: Covers(sprite, x, y, k) && gfx[k] == 1
  {
    var p := 8 * |sprite|;
    DrawPrefixCells(gfx, sprite, x, y, p);
    DrawPrefixCollision(gfx, sprite, x, y, p);
    forall k | 0 <= k < PIXELS
      ensures CoveredBefore(sprite, x, y, k, p) == Covers(sprite, x, y, k)
    {
      if Covers(sprite, x, y, k) {
        assert RowOf(y, k) * 8 + ColOf(x, k) < 8 * |sprite|;
      }
    }
  }

  /** Each set bit (row, col) of the sprite toggles the cell
      `((x + col) % 64) + ((y + row) % 32) * 64`. */
  lemma DrawFlipsLitPixel(gfx: seq<Cell>, sprite: seq<Byte>, x: Byte, y: Byte, row: nat, col: nat)
    requires |gfx| == PIXELS && |sprite| <= HEIGHT
    requires row < |sprite| && col < 8 && SpriteBit(sprite[row], col)
    ensures DrawSprite(gfx, sprite, x, y).gfx[PixelIndex(x, y, row, col)]
      == Flip(gfx[PixelIndex(x, y, row, col)])
  {
    DrawSpriteEffect(gfx, sprite, x, y);
    PixelIndexInverse(x, y, row, col);
    assert (row * 8 + col) / 8 == row && (row * 8 + col) % 8 == col;
  }

  /** Drawing the same sprite twice at the same place restores the screen. */
  lemma DrawTwiceRestores(gfx: seq<Cell>, sprite: seq<Byte>, x: Byte, y: Byte)
    requires |gfx| == PIXELS && |sprite| <= HEIGHT
    ensures DrawSprite(DrawSprite(gfx, sprite, x, y).gfx, sprite, x, y).gfx == gfx
  {
    var once := DrawSprite(gfx, sprite, x, y).gfx;
    DrawSpriteEffect(gfx, sprite, x, y);
    DrawSpriteEffect(once, sprite, x, y);
    var twice := DrawSprite(once, sprite, x, y).gfx;
    assert forall k | 0 <= k < PIXELS :: twice[k] == gfx[k];
  }

  /** A screen of 0s and 1s stays one. */
  lemma DrawKeepsBinary(gfx: seq<Cell>, sprite: seq<Byte>, x: Byte, y: Byte)
    requires |gfx| == PIXELS && |sprite| <= HEIGHT && Binary(gfx)
    ensures Binary(DrawSprite(gfx, sprite, x, y).gfx)
  {
    DrawSpriteEffect(gfx, sprite, x, y);
  }

  /** On a blank screen the first draw never collides, and drawing the same
      sprite again collides exactly when the sprite has a set bit. */
  lemma DrawTwiceOnBlank(gfx: seq<Cell>, sprite: seq<Byte>, x: Byte, y: Byte)
    requires |gfx| == PIXELS && |sprite| <= HEIGHT
    requires forall k | 0 <= k < PIXELS :: gfx[k] == 0
    ensures !DrawSprite(gfx, sprite, x, y).collision
    ensures DrawSprite(DrawSprite(gfx, sprite, x, y).gfx, sprite, x, y).collision
      <==> exists p | 0 <= p < 8 * |sprite| :: Lit(sprite, p)
  {
    var once := DrawSprite(gfx, sprite, x, y).gfx;
    DrawSpriteEffect(gfx, sprite, x, y);
    DrawSpriteEffect(once, sprite, x, y);
    if p :| 0 <= p < 8 * |sprite| && Lit(sprite, p) {
      var row, col := p / 8, p % 8;
      var k := PixelIndex(x, y, row, col);
      PixelIndexInverse(x, y, row, col);
      assert Covers(sprite, x, y, k) && once[k] == 1;
    }
  }
}
