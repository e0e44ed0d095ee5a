/**
 * The "42" logo template and its scaling (src/generator/src/ft_logo_cells.py).
 * Logo cells are relative offsets around the grid's centre; a scale `s`
 * replaces every template cell by an s x s block.
 */
module FtLogo {
  import opened Wrappers
  import opened Grid

  /** `Maze.MIN_FT_WIDTH` and `Maze.MIN_FT_HEIGHT` (maze.py:29-30). */
  const MinFtWidth: int := 9
  const MinFtHeight: int := 7

  /** `Ft_Logo_Cells.DEFAULT_CELLS`: the 18 offsets of the unscaled logo. */
  const DefaultCells: seq<Coord> := [
    (-1, 0), (-2, 0), (-3, 0), (-3, -1), (-3, -2), (-1, 1), (-1, 2),
    (1, 0), (2, 0), (3, 0), (3, -1), (3, -2), (2, -2), (1, -2),
    (1, 1), (1, 2), (2, 2), (3, 2)
  ]

  /** The ValueError `scale_logo` raises for a scale that is not positive. */
  datatype LogoError = NonPositiveScale

  /** The template has 18 pairwise distinct cells. */
  lemma DefaultCellsDistinct()
    ensures |DefaultCells| == 18
    ensures forall i, j :: 0 <= i < j < |DefaultCells| ==> DefaultCells[i] != DefaultCells[j]
  {
  }

  /** The template spans x in [-3, 3] and y in [-2, 2]. */
  lemma DefaultCellsSpan()
    ensures forall t :: t in DefaultCells ==> -3 <= t.0 <= 3 && -2 <= t.1 <= 2
  {
  }

  /** Position of `t` in `s`, or -1. */
  function IndexOf(s: seq<Coord>, t: Coord): (k: int)
    ensures -1 <= k < |s|
    ensures k >= 0 ==> s[k] == t && t !in s[..k]
    ensures k < 0 ==> t !in s
  {
    if |s| == 0 then -1
    else if s[0] == t then 0
    else
      var k := IndexOf(s[1..], t);
      if k < 0 then -1 else k + 1
  }

  /** In a sequence without repetitions, the position of `s[k]` is `k`. */
  lemma {:induction false} IndexOfDistinct(s: seq<Coord>, k: int)
    requires 0 <= k < |s|
    requires forall i, j :: 0 <= i < j < |s| ==> s[i] != s[j]
    ensures IndexOf(s, s[k]) == k
  {
    if k > 0 {
      assert s[0] != s[k];
      IndexOfDistinct(s[1..], k - 1);
      assert s[1..][k - 1] == s[k];
    }
  }

  lemma MulAtLeast(a: int, s: int)
    requires a >= 1 && s > 0
    ensures a * s >= s
  {
    assert a * s == (a - 1) * s + s;
    assert (a - 1) * s >= 0;
  }

  /** Floor division by `s` recovers the block (`q`) and the offset (`i`) of `q * s + i`. */
  lemma DivModOf(q: int, s: int, i: int)
    requires s > 0 && 0 <= i < s
    ensures (q * s + i) / s == q && (q * s + i) % s == i
  {
    var x := q * s + i;
    var q', i' := x / s, x % s;
    assert x == q' * s + i';
    if q' > q {
      MulAtLeast(q' - q, s);
      assert false;
    } else if q' < q {
      MulAtLeast(q - q', s);
      assert false;
    }
  }

  /** The offsets [0, scale) x [0, scale) of one block. */
  function Offsets(scale: int): set<Coord>
  {
    set i, j | 0 <= i < scale && 0 <= j < scale :: (i, j)
  }

  /** Cell `o` of the block of template cell `t`: `(rx * scale + offset_x, ry * scale + offset_y)`. */
  function Block(t: Coord, scale: int, o: Coord): Coord
  {
    (t.0 * scale + o.0, t.1 * scale + o.1)
  }

  /** Every offset of the block of every cell of `cells`. */
  function Scaled(cells: seq<Coord>, scale: int): set<Coord>
    requires scale > 0
  {
    set t, o | t in cells && o in Offsets(scale) :: Block(t, scale, o)
  }

  /** The value of `scale_logo(scale)` as a set. */
  function ScaledLogo(scale: int): set<Coord>
    requires scale > 0
  {
    Scaled(DefaultCells, scale)
  }

  /** The block of a point (floor division by the scale on both axes). */
  function BlockOf(p: Coord, scale: int): Coord
    requires scale > 0
  {
    (p.0 / scale, p.1 / scale)
  }

  /** The block of `Block(t, scale, o)` is `t`, and its offset is `o`. */
  lemma BlockOfBlock(t: Coord, scale: int, o: Coord)
    requires scale > 0 && o in Offsets(scale)
    ensures BlockOf(Block(t, scale, o), scale) == t
    ensures Block(t, scale, o).0 % scale == o.0 && Block(t, scale, o).1 % scale == o.1
  {
    DivModOf(t.0, scale, o.0);
    DivModOf(t.1, scale, o.1);
  }

  /** Every point is `Block` of its block and its offset. */
  lemma BlockDecompose(p: Coord, scale: int)
    requires scale > 0
    ensures (p.0 % scale, p.1 % scale) in Offsets(scale)
    ensures p == Block(BlockOf(p, scale), scale, (p.0 % scale, p.1 % scale))
  {
  }

  lemma {:induction false} ScaledMember(cells: seq<Coord>, scale: int, p: Coord)
    requires scale > 0
    ensures p in Scaled(cells, scale) <==> BlockOf(p, scale) in cells
  {
    if p in Scaled(cells, scale) {
      var t, o :| t in cells && o in Offsets(scale) && p == Block(t, scale, o);
      BlockOfBlock(t, scale, o);
    }
    if BlockOf(p, scale) in cells {
      BlockDecompose(p, scale);
    }
  }

  /** A point is a scaled logo cell exactly when its block is a template cell. */
  lemma ScaledLogoMember(scale: int, p: Coord)
    requires scale > 0
    ensures p in ScaledLogo(scale) <==> (p.0 / scale, p.1 / scale) in DefaultCells
  {
    ScaledMember(DefaultCells, scale, p);
  }

  /** `scale_logo(1)` is the template itself. */
  lemma ScaleOneIsTemplate()
    ensures ScaledLogo(1) == set t | t in DefaultCells
  {
    forall p: Coord
      ensures p in ScaledLogo(1) <==> p in DefaultCells
    {
      ScaledMember(DefaultCells, 1, p);
      assert BlockOf(p, 1) == p;
    }
  }

  /**
   * Loop progress of `scale_logo` over `cells`: `p` was added once the blocks
   * before `k` are done and, in block `k`, the offsets before (a, b) in
   * (offset_x, offset_y) order.
   */
  predicate Emitted(cells: seq<Coord>, p: Coord, k: int, a: int, b: int, scale: int)
    requires scale > 0
  {
    var m := IndexOf(cells, BlockOf(p, scale));
    0 <= m && (m < k || (m == k && (p.0 % scale < a || (p.0 % scale == a && p.1 % scale < b))))
  }

  /** Adding offset (a, b) of block `k` adds one cell that was not there: the next one in loop order. */
  lemma EmitNext(template: seq<Coord>, emitted: set<Coord>, k: int, a: int, b: int, scale: int)
    requires scale > 0 && 0 <= k < |template| && 0 <= a < scale && 0 <= b < scale
    requires forall i, j :: 0 <= i < j < |template| ==> template[i] != template[j]
    requires forall p :: p in emitted <==> Emitted(template, p, k, a, b, scale)
    ensures Block(template[k], scale, (a, b)) !in emitted
    ensures forall p :: p in emitted + {Block(template[k], scale, (a, b))} <==> Emitted(template, p, k, a, b + 1, scale)
  {
    var t := template[k];
    var q := Block(t, scale, (a, b));
    BlockOfBlock(t, scale, (a, b));
    IndexOfDistinct(template, k);
    forall p | p != q
      ensures Emitted(template, p, k, a, b + 1, scale) <==> Emitted(template, p, k, a, b, scale)
    {
      if IndexOf(template, BlockOf(p, scale)) == k && p.0 % scale == a && p.1 % scale == b {
        BlockDecompose(p, scale);
      }
    }
  }

  /** Finishing column `a` of block `k` is starting column `a + 1`. */
  lemma EmitColumn(template: seq<Coord>, emitted: set<Coord>, k: int, a: int, scale: int)
    requires scale > 0
    requires forall p :: p in emitted <==> Emitted(template, p, k, a, scale, scale)
    ensures forall p :: p in emitted <==> Emitted(template, p, k, a + 1, 0, scale)
  {
  }

  /** Finishing block `k` is starting block `k + 1`. */
  lemma EmitBlock(template: seq<Coord>, emitted: set<Coord>, k: int, scale: int)
    requires scale > 0
    requires forall p :: p in emitted <==> Emitted(template, p, k, scale, 0, scale)
    ensures forall p :: p in emitted <==> Emitted(template, p, k + 1, 0, 0, scale)
  {
  }

  /** All blocks done: exactly the scaled cells. */
  lemma EmitAll(cells: seq<Coord>, p: Coord, scale: int)
    requires scale > 0
    ensures Emitted(cells, p, |cells|, 0, 0, scale) <==> p in Scaled(cells, scale)
  {
    ScaledMember(cells, scale, p);
  }

  /**
   * The loop of `scale_logo` over a template of distinct cells: the result is
   * the scaled template and, the blocks being disjoint, has |template| * scale^2
   * cells (ft_logo_cells.py:63-72).
   */
  method ScaleCells(template: seq<Coord>, scale: int) returns (scaledCells: set<Coord>)
    requires scale > 0
    requires forall i, j :: 0 <= i < j < |template| ==> template[i] != template[j]
    ensures scaledCells == Scaled(template, scale)
    ensures |scaledCells| == |template| * (scale * scale)
  {
    ghost var area := scale * scale;
    scaledCells := {};
    for k := 0 to |template|
      invariant forall p :: p in scaledCells <==> Emitted(template, p, k, 0, 0, scale)
      invariant |scaledCells| == k * area
    {
      ghost var blockBase := |scaledCells|;
      var (relX, relY) := template[k];
      var blockOriginX := relX * scale;
      var blockOriginY := relY * scale;
      for offsetX := 0 to scale
        invariant forall p :: p in scaledCells <==> Emitted(template, p, k, offsetX, 0, scale)
        invariant |scaledCells| == blockBase + offsetX * scale
      {
        ghost var columnBase := |scaledCells|;
        for offsetY := 0 to scale
          invariant forall p :: p in scaledCells <==> Emitted(template, p, k, offsetX, offsetY, scale)
          invariant |scaledCells| == columnBase + offsetY
        {
          var q := (blockOriginX + offsetX, blockOriginY + offsetY);
          assert q == Block(template[k], scale, (offsetX, offsetY));
          EmitNext(template, scaledCells, k, offsetX, offsetY, scale);
          scaledCells := scaledCells + {q};
        }
        EmitColumn(template, scaledCells, k, offsetX, scale);
        assert (offsetX + 1) * scale == offsetX * scale + scale;
      }
      EmitBlock(template, scaledCells, k, scale);
      assert (k + 1) * area == k * area + area;
    }
    forall p ensures p in scaledCells <==> p in Scaled(template, scale) {
      EmitAll(template, p, scale);
    }
  }

  /**
   * `Ft_Logo_Cells.scale_logo`: raises for a scale of at most 0; otherwise
   * the scaled template, 18 * scale^2 distinct cells (ft_logo_cells.py:61-72).
   */
  method ScaleLogo(scale: int) returns (r: Result<set<Coord>, LogoError>)
    ensures r.Failure? <==> scale <= 0
    ensures r.Success? ==> r.value == ScaledLogo(scale)
    ensures r.Success? ==> |r.value| == 18 * (scale * scale)
  {
    if scale <= 0 {
      return Failure(NonPositiveScale);
    }
    DefaultCellsDistinct();
    var scaledCells := ScaleCells(DefaultCells, scale);
    return Success(scaledCells);
  }

  /**
   * `Ft_Logo_Cells.choose_logo_scale`: 0 (no logo) when the grid is narrower
   * than 9 or lower than 7, otherwise a scale tier chosen by the smaller side.
   */
  function ChooseLogoScale(width: int, height: int): (scale: int)
    ensures scale == 0 <==> width < MinFtWidth || height < MinFtHeight
    ensures 0 <= scale <= 4
  {
    if width < MinFtWidth || height < MinFtHeight then 0
    else
      var minDimension := if width < height then width else height;
      if minDimension < 30 then 1
      else if minDimension < 75 then 2
      else if minDimension < 150 then 3
      else 4
  }

  /** `__MIN_DIM_1`, `__MIN_DIM_2` and `__MIN_DIM_3`: the smaller sides at which the logo grows a size. */
  const ScaleThresholds: seq<int> := [30, 75, 150]

  /** How many of the thresholds the length `m` reaches. */
  function Reached(thresholds: seq<int>, m: int): (n: nat)
    ensures n <= |thresholds|
  {
    if thresholds == [] then 0
    else (if thresholds[0] <= m then 1 else 0) + Reached(thresholds[1..], m)
  }

  /**
   * On a grid that takes a logo, the scale is one plus the number of
   * thresholds the smaller side reaches, and the smaller side lies between
   * the threshold of its scale and the next one.
   */
  lemma ScaleCountsThresholds(width: int, height: int)
    requires width >= MinFtWidth && height >= MinFtHeight
    ensures var m := if width < height then width else height;
      ChooseLogoScale(width, height) == 1 + Reached(ScaleThresholds, m)
    ensures var m, s := (if width < height then width else height), ChooseLogoScale(width, height);
      (s >= 2 ==> ScaleThresholds[s - 2] <= m) && (s <= 3 ==> m < ScaleThresholds[s - 1])
  {
    var m := if width < height then width else height;
    var t := ScaleThresholds;
    assert t[1..] == [75, 150] && t[1..][1..] == [150] && t[1..][1..][1..] == [];
    assert Reached(t[1..][1..], m) == (if 150 <= m then 1 else 0);
    assert Reached(t[1..], m) == (if 75 <= m then 1 else 0) + (if 150 <= m then 1 else 0);
    assert Reached(t, m) == (if 30 <= m then 1 else 0) + (if 75 <= m then 1 else 0) + (if 150 <= m then 1 else 0);
  }

  /** A grid whose smaller side is not smaller never gets a smaller logo. */
  lemma ScaleMonotonic(w1: int, h1: int, w2: int, h2: int)
    requires w1 >= MinFtWidth && h1 >= MinFtHeight && w2 >= MinFtWidth && h2 >= MinFtHeight
    requires (if w1 < h1 then w1 else h1) <= (if w2 < h2 then w2 else h2)
    ensures ChooseLogoScale(w1, h1) <= ChooseLogoScale(w2, h2)
  {
  }

  /** `ceil(n / 2)` for a positive n. */
  function HalfUp(n: int): int
  {
    (n + 1) / 2
  }

  /** The logo translated so that its origin sits at (ceil(width/2), ceil(height/2)). */
  function PlacedLogo(width: int, height: int, scale: int): set<Coord>
    requires scale > 0
  {
    Translate(ScaledLogo(scale), HalfUp(width), HalfUp(height))
  }

  /** Every point of `s` moved by (dx, dy). */
  function Translate(s: set<Coord>, dx: int, dy: int): set<Coord>
  {
    set p | p in s :: (dx + p.0, dy + p.1)
  }

  /** The placed logo is never empty: it holds at least the image of the first template cell. */
  lemma PlacedLogoNonEmpty(width: int, height: int, scale: int)
    requires scale > 0
    ensures PlacedLogo(width, height, scale) != {}
  {
    var first := (-scale, 0);
    DivModOf(-1, scale, 0);
    DivModOf(0, scale, 0);
    assert (first.0 / scale, first.1 / scale) == DefaultCells[0];
    ScaledLogoMember(scale, first);
    TranslateMember(ScaledLogo(scale), HalfUp(width), HalfUp(height), (HalfUp(width) + first.0, HalfUp(height) + first.1));
  }

  /** `c` is an image exactly when moving it back lands in `s`. */
  lemma TranslateMember(s: set<Coord>, dx: int, dy: int, c: Coord)
    ensures c in Translate(s, dx, dy) <==> (c.0 - dx, c.1 - dy) in s
  {
    if (c.0 - dx, c.1 - dy) in s {
      assert c == (dx + (c.0 - dx), dy + (c.1 - dy));
    }
  }

  /** Translating one more point adds its image. */
  lemma TranslateAdd(s: set<Coord>, p: Coord, dx: int, dy: int)
    ensures Translate(s + {p}, dx, dy) == Translate(s, dx, dy) + {(dx + p.0, dy + p.1)}
  {
  }

  lemma MulBounds(a: int, lo: int, hi: int, s: int)
    requires lo <= a <= hi && s > 0
    ensures lo * s <= a * s <= hi * s
  {
    if lo < a { MulAtLeast(a - lo, s); }
    if a < hi { MulAtLeast(hi - a, s); }
  }

  /** A scaled cell of a template within [-3, 3] x [-2, 2] lies within [-3s, 4s) x [-2s, 3s). */
  lemma ScaledSpan(scale: int, p: Coord)
    requires scale > 0 && p in ScaledLogo(scale)
    ensures -3 * scale <= p.0 < 4 * scale && -2 * scale <= p.1 < 3 * scale
  {
    var t, o :| t in DefaultCells && o in Offsets(scale) && p == Block(t, scale, o);
    DefaultCellsSpan();
    MulBounds(t.0, -3, 3, scale);
    MulBounds(t.1, -2, 2, scale);
  }

  /**
   * Whenever a logo is drawn, every scaled cell translated to the centre lies
   * inside the grid, so the callers' direct lookups never miss.
   */
  lemma PlacedLogoInGrid(width: int, height: int)
    requires ChooseLogoScale(width, height) != 0
    ensures forall c :: c in PlacedLogo(width, height, ChooseLogoScale(width, height)) ==> InGrid(width, height, c)
  {
    var s := ChooseLogoScale(width, height);
    forall c | c in PlacedLogo(width, height, s)
      ensures InGrid(width, height, c)
    {
      var p := (c.0 - HalfUp(width), c.1 - HalfUp(height));
      TranslateMember(ScaledLogo(s), HalfUp(width), HalfUp(height), c);
      ScaledSpan(s, p);
    }
  }
}
