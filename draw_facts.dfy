/** The sprite drawing of `OP_Dxyn` in src/Chip8.ts in closed form: every
    screen pixel that a lit sprite bit lands on is flipped, every other
    pixel is kept, VF reports whether a flipped pixel was lit before, and
    drawing the same sprite twice at the same place restores the screen. */
module DrawFacts {
  import opened Bits
  import opened Machine

  /** Sprite bit `col` of row `row` is lit and lands on pixel `p`. */
  ghost predicate Lands(sprite: seq<Byte>, startX: nat, startY: nat, row: nat, col: nat, p: nat)
    requires row < |sprite| && col < 8
  {
    SpriteBit(sprite[row], col) && PixelIndex(startX, startY, row, col) == p
  }

  /** Some lit bit among the first `b` bits of `spriteByte`, drawn as row `row`, lands on `p`. */
  ghost predicate RowCovers(spriteByte: Byte, startX: nat, startY: nat, row: nat, b: nat, p: nat)
    requires b <= 8
  {
    exists col | 0 <= col < b :: SpriteBit(spriteByte, col) && PixelIndex(startX, startY, row, col) == p
  }

  /** Some lit bit of the first `rows` rows of the sprite lands on `p`. */
  ghost predicate Covers(sprite: seq<Byte>, startX: nat, startY: nat, rows: nat, p: nat)
    requires rows <= |sprite|
  {
    exists row, col | 0 <= row < rows && 0 <= col < 8 :: Lands(sprite, startX, startY, row, col, p)
  }

  /** Some lit bit of the first `rows` rows lands on a pixel that is lit in `video`. */
  ghost predicate Collides(video: seq<Byte>, sprite: seq<Byte>, startX: nat, startY: nat, rows: nat)
    requires |video| == VIDEO_W * VIDEO_H && rows <= |sprite|
  {
    exists row, col | 0 <= row < rows && 0 <= col < 8 ::
      SpriteBit(sprite[row], col) && video[PixelIndex(startX, startY, row, col)] == 1
  }

  /** `(a + c1) % m == (a + c2) % m` pins down an offset below `m`. */
  lemma OffsetModInjective(a: nat, c1: nat, c2: nat, m: nat)
    requires m == VIDEO_W || m == VIDEO_H
    requires c1 < m && c2 < m && (a + c1) % m == (a + c2) % m
    ensures c1 == c2
  {
    var q1, q2 := (a + c1) / m, (a + c2) / m;
    assert a + c1 == m * q1 + (a + c1) % m;
    assert a + c2 == m * q2 + (a + c2) % m;
  }

  /** Distinct sprite cells land on distinct pixels, for sprites of at
      most 32 rows and 64 columns (a Dxyn sprite has at most 15 rows of 8). */
  lemma PixelIndexInjective(startX: nat, startY: nat, r1: nat, c1: nat, r2: nat, c2: nat)
    requires r1 < VIDEO_H && r2 < VIDEO_H && c1 < VIDEO_W && c2 < VIDEO_W
    requires PixelIndex(startX, startY, r1, c1) == PixelIndex(startX, startY, r2, c2)
    ensures r1 == r2 && c1 == c2
  {
    var y1, x1 := (startY + r1) % VIDEO_H, (startX + c1) % VIDEO_W;
    var y2, x2 := (startY + r2) % VIDEO_H, (startX + c2) % VIDEO_W;
    assert y1 * VIDEO_W + x1 == y2 * VIDEO_W + x2;
    assert y1 == y2 && x1 == x2;
    OffsetModInjective(startY, r1, r2, VIDEO_H);
    OffsetModInjective(startX, c1, c2, VIDEO_W);
  }

  /** After the first `b` bits of a row, a pixel is flipped exactly when a
      lit bit among them lands on it. */
  lemma {:induction false} DrawRowPixel(d: Drawn, spriteByte: Byte, startX: nat, startY: nat, row: nat, b: nat, p: nat)
    requires |d.video| == VIDEO_W * VIDEO_H && b <= 8 && row < VIDEO_H && p < VIDEO_W * VIDEO_H
    ensures DrawRow(d, spriteByte, startX, startY, row, b).video[p]
         == if RowCovers(spriteByte, startX, startY, row, b, p) then Xor(d.video[p], 1) else d.video[p]
    decreases b
  {
    if b > 0 {
      var col := b - 1;
      var prev := DrawRow(d, spriteByte, startX, startY, row, col);
      DrawRowPixel(d, spriteByte, startX, startY, row, col, p);
      if SpriteBit(spriteByte, col) && PixelIndex(startX, startY, row, col) == p {
        assert RowCovers(spriteByte, startX, startY, row, b, p);
        if RowCovers(spriteByte, startX, startY, row, col, p) {
          var c :| 0 <= c < col && SpriteBit(spriteByte, c) && PixelIndex(startX, startY, row, c) == p;
          PixelIndexInjective(startX, startY, row, c, row, col);
        }
        assert DrawRow(d, spriteByte, startX, startY, row, b).video[p] == Xor(prev.video[p], 1);
      } else {
        assert DrawRow(d, spriteByte, startX, startY, row, b).video[p] == prev.video[p];
        assert RowCovers(spriteByte, startX, startY, row, b, p) ==> RowCovers(spriteByte, startX, startY, row, col, p);
      }
    }
  }

  /** After the first `b` bits of a row, the collision flag is raised
      exactly when it was raised before or a lit bit among them lands on a
      pixel lit before the row was drawn. */
  lemma {:induction false} DrawRowCollision(d: Drawn, spriteByte: Byte, startX: nat, startY: nat, row: nat, b: nat)
    requires |d.video| == VIDEO_W * VIDEO_H && b <= 8 && row < VIDEO_H
    ensures DrawRow(d, spriteByte, startX, startY, row, b).collision
        <==> d.collision || exists col | 0 <= col < b ::
               SpriteBit(spriteByte, col) && d.video[PixelIndex(startX, startY, row, col)] == 1
    decreases b
  {
    if b > 0 {
      var col := b - 1;
      var p := PixelIndex(startX, startY, row, col);
      DrawRowCollision(d, spriteByte, startX, startY, row, col);
      DrawRowPixel(d, spriteByte, startX, startY, row, col, p);
      if RowCovers(spriteByte, startX, startY, row, col, p) {
        var c :| 0 <= c < col && SpriteBit(spriteByte, c) && PixelIndex(startX, startY, row, c) == p;
        PixelIndexInjective(startX, startY, row, c, row, col);
      }
    }
  }

  /** A full row covers a pixel exactly when one of its lit bits lands there. */
  lemma CoversStep(sprite: seq<Byte>, startX: nat, startY: nat, rows: nat, p: nat)
    requires 0 < rows <= |sprite|
    ensures Covers(sprite, startX, startY, rows, p)
        <==> Covers(sprite, startX, startY, rows - 1, p) || RowCovers(sprite[rows - 1], startX, startY, rows - 1, 8, p)
  {
    if Covers(sprite, startX, startY, rows, p) {
      var row, col :| 0 <= row < rows && 0 <= col < 8 && Lands(sprite, startX, startY, row, col, p);
      if row < rows - 1 {
        assert Covers(sprite, startX, startY, rows - 1, p);
      } else {
        assert RowCovers(sprite[rows - 1], startX, startY, rows - 1, 8, p);
      }
    }
    if RowCovers(sprite[rows - 1], startX, startY, rows - 1, 8, p) {
      var col :| 0 <= col < 8 && SpriteBit(sprite[rows - 1], col) && PixelIndex(startX, startY, rows - 1, col) == p;
      assert Lands(sprite, startX, startY, rows - 1, col, p);
    }
    if Covers(sprite, startX, startY, rows - 1, p) {
      var row, col :| 0 <= row < rows - 1 && 0 <= col < 8 && Lands(sprite, startX, startY, row, col, p);
      assert Lands(sprite, startX, startY, row, col, p);
    }
  }

  /** A pixel covered by the last row is not covered by an earlier one. */
  lemma RowsDisjoint(sprite: seq<Byte>, startX: nat, startY: nat, rows: nat, p: nat)
    requires 0 < rows <= |sprite| && rows <= VIDEO_H
    requires RowCovers(sprite[rows - 1], startX, startY, rows - 1, 8, p)
    ensures !Covers(sprite, startX, startY, rows - 1, p)
  {
    var col :| 0 <= col < 8 && SpriteBit(sprite[rows - 1], col) && PixelIndex(startX, startY, rows - 1, col) == p;
    if Covers(sprite, startX, startY, rows - 1, p) {
      var row, c :| 0 <= row < rows - 1 && 0 <= c < 8 && Lands(sprite, startX, startY, row, c, p);
      PixelIndexInjective(startX, startY, row, c, rows - 1, col);
    }
  }

  /** After the first `rows` rows, a pixel is flipped exactly when a lit
      sprite bit lands on it. */
  lemma {:induction false} DrawRowsPixel(video: seq<Byte>, sprite: seq<Byte>, startX: nat, startY: nat, rows: nat, p: nat)
    requires |video| == VIDEO_W * VIDEO_H && rows <= |sprite| && rows <= VIDEO_H && p < VIDEO_W * VIDEO_H
    ensures DrawRows(video, sprite, startX, startY, rows).video[p]
         == if Covers(sprite, startX, startY, rows, p) then Xor(video[p], 1) else video[p]
    decreases rows
  {
    if rows > 0 {
      var before := DrawRows(video, sprite, startX, startY, rows - 1);
      DrawRowsPixel(video, sprite, startX, startY, rows - 1, p);
      DrawRowPixel(before, sprite[rows - 1], startX, startY, rows - 1, 8, p);
      CoversStep(sprite, startX, startY, rows, p);
      if RowCovers(sprite[rows - 1], startX, startY, rows - 1, 8, p) {
        RowsDisjoint(sprite, startX, startY, rows, p);
      }
    }
  }

  /** After the first `rows` rows, the collision flag is raised exactly
      when a lit sprite bit lands on a pixel that was lit to begin with. */
  lemma {:induction false} DrawRowsCollision(video: seq<Byte>, sprite: seq<Byte>, startX: nat, startY: nat, rows: nat)
    requires |video| == VIDEO_W * VIDEO_H && rows <= |sprite| && rows <= VIDEO_H
    ensures DrawRows(video, sprite, startX, startY, rows).collision <==> Collides(video, sprite, startX, startY, rows)
    decreases rows
  {
    if rows > 0 {
      var row := rows - 1;
      var before := DrawRows(video, sprite, startX, startY, row);
      DrawRowsCollision(video, sprite, startX, startY, row);
      DrawRowCollision(before, sprite[row], startX, startY, row, 8);
      assert RowCollides(before.video, sprite[row], startX, startY, row) <==> RowCollides(video, sprite[row], startX, startY, row) by {
        forall col | 0 <= col < 8 && SpriteBit(sprite[row], col)
          ensures before.video[PixelIndex(startX, startY, row, col)] == video[PixelIndex(startX, startY, row, col)]
        {
          var p := PixelIndex(startX, startY, row, col);
          assert RowCovers(sprite[row], startX, startY, row, 8, p);
          RowsDisjoint(sprite, startX, startY, rows, p);
          DrawRowsPixel(video, sprite, startX, startY, row, p);
        }
      }
      CollidesStep(video, sprite, startX, startY, rows);
    }
  }

  lemma CollidesStep(video: seq<Byte>, sprite: seq<Byte>, startX: nat, startY: nat, rows: nat)
    requires |video| == VIDEO_W * VIDEO_H && 0 < rows <= |sprite|
    ensures Collides(video, sprite, startX, startY, rows)
        <==> Collides(video, sprite, startX, startY, rows - 1)
             || RowCollides(video, sprite[rows - 1], startX, startY, rows - 1)
  {
    if Collides(video, sprite, startX, startY, rows) {
      var row, col :| 0 <= row < rows && 0 <= col < 8 &&
        SpriteBit(sprite[row], col) && video[PixelIndex(startX, startY, row, col)] == 1;
      if row < rows - 1 {
        assert Collides(video, sprite, startX, startY, rows - 1);
      }
    }
  }

  /** Some lit bit of row `row` lands on a pixel lit in `video`. */
  ghost predicate RowCollides(video: seq<Byte>, spriteByte: Byte, startX: nat, startY: nat, row: nat)
    requires |video| == VIDEO_W * VIDEO_H
  {
    exists col | 0 <= col < 8 :: SpriteBit(spriteByte, col) && video[PixelIndex(startX, startY, row, col)] == 1
  }

  /** The sprite and start position that `OP_Dxyn` draws: VF is cleared
      before Vx and Vy are read. */
  function Sprite(s: State): (sprite: seq<Byte>)
    requires WellFormed(s) && s.i + Nibble0(s.opcode) <= MEMORY_SIZE
    ensures |sprite| == Nibble0(s.opcode) && |sprite| < VIDEO_H
  {
    s.memory[s.i..s.i + Nibble0(s.opcode)]
  }

  function StartX(s: State): (x: nat)
    requires WellFormed(s)
    ensures x < VIDEO_W
  {
    s.reg[FLAG := 0][Vx(s.opcode)] % VIDEO_W
  }

  function StartY(s: State): (y: nat)
    requires WellFormed(s)
    ensures y < VIDEO_H
  {
    s.reg[FLAG := 0][Vy(s.opcode)] % VIDEO_H
  }

  /** DRW Vx, Vy, n in closed form: exactly the pixels that lit sprite bits
      land on are flipped, VF is 1 exactly when one of them was lit before,
      and nothing but the screen and VF changes. */
  lemma Draw(s: State)
    requires WellFormed(s) && s.i + Nibble0(s.opcode) <= MEMORY_SIZE
    ensures var r, sprite, x, y := OpDxyn(s), Sprite(s), StartX(s), StartY(s);
            var n := |sprite|;
            && (forall p | 0 <= p < VIDEO_W * VIDEO_H ::
                  r.video[p] == if Covers(sprite, x, y, n, p) then Xor(s.video[p], 1) else s.video[p])
            && (r.reg[FLAG] == 1 <==> Collides(s.video, sprite, x, y, n))
            && (r.reg[FLAG] == 0 <==> !Collides(s.video, sprite, x, y, n))
            && r == s.(video := r.video, reg := s.reg[FLAG := r.reg[FLAG]])
  {
    var sprite, x, y := Sprite(s), StartX(s), StartY(s);
    var n := |sprite|;
    forall p | 0 <= p < VIDEO_W * VIDEO_H
      ensures OpDxyn(s).video[p] == if Covers(sprite, x, y, n, p) then Xor(s.video[p], 1) else s.video[p]
    {
      DrawRowsPixel(s.video, sprite, x, y, n, p);
    }
    DrawRowsCollision(s.video, sprite, x, y, n);
  }

  /** XOR with 1 flips a pixel of a two-colour screen. */
  lemma FlipPixel(v: Byte)
    requires v <= 1
    ensures Xor(v, 1) == 1 - v
  {
    Pow2Eight();
    CombineXorZeros(7);
    assert Combine(XorOp, v, 1, 8) == (if v == 0 then 1 else 0) + 2 * Combine(XorOp, 0, 0, 7);
  }

  /** A screen of zeros and ones stays so after a draw. */
  lemma DrawKeepsScreenBinary(s: State)
    requires WellFormed(s) && s.i + Nibble0(s.opcode) <= MEMORY_SIZE
    requires forall p | 0 <= p < VIDEO_W * VIDEO_H :: s.video[p] <= 1
    ensures forall p | 0 <= p < VIDEO_W * VIDEO_H :: OpDxyn(s).video[p] <= 1
  {
    Draw(s);
    forall p | 0 <= p < VIDEO_W * VIDEO_H
      ensures OpDxyn(s).video[p] <= 1
    {
      FlipPixel(s.video[p]);
    }
  }

  /** Drawing the same sprite twice at the same place restores the screen.
      This holds even when a coordinate register is VF: VF is cleared before
      the coordinates are read, so both draws read 0 from it. */
  lemma DrawTwiceRestores(s: State)
    requires WellFormed(s) && s.i + Nibble0(s.opcode) <= MEMORY_SIZE
    ensures OpDxyn(OpDxyn(s)).video == s.video
  {
    var once := OpDxyn(s);
    Draw(s);
    Draw(once);
    assert Sprite(once) == Sprite(s) && StartX(once) == StartX(s) && StartY(once) == StartY(s);
    var sprite, x, y := Sprite(s), StartX(s), StartY(s);
    forall p | 0 <= p < VIDEO_W * VIDEO_H
      ensures OpDxyn(once).video[p] == s.video[p]
    {
      if Covers(sprite, x, y, |sprite|, p) {
        XorTwice(s.video[p], 1);
      }
    }
  }
}
