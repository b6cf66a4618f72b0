/** The eight masks as pictures: where mask `id` flips the module in column x, row y. */
module MaskTiles {
  import opened Common
  import opened Placement
  import opened Masking

  const TILE0: seq<string> :=
    ["#.#.#.",
     ".#.#.#",
     "#.#.#.",
     ".#.#.#",
     "#.#.#.",
     ".#.#.#"]

  const TILE1: seq<string> :=
    ["######",
     "......",
     "######",
     "......",
     "######",
     "......"]

  const TILE2: seq<string> :=
    ["#..#..",
     "#..#..",
     "#..#..",
     "#..#..",
     "#..#..",
     "#..#.."]

  const TILE3: seq<string> :=
    ["#..#..",
     "..#..#",
     ".#..#.",
     "#..#..",
     "..#..#",
     ".#..#."]

  const TILE4: seq<string> :=
    ["###...",
     "###...",
     "...###",
     "...###"]

  const TILE5: seq<string> :=
    ["######",
     "#.....",
     "#..#..",
     "#.#.#.",
     "#..#..",
     "#....."]

  const TILE6: seq<string> :=
    ["######",
     "###...",
     "##.##.",
     "#.#.#.",
     "#.##.#",
     "#...##"]

  const TILE7: seq<string> :=
    ["#.#.#.",
     "...###",
     "#...##",
     ".#.#.#",
     "###...",
     ".###.."]

  function Tile(id: int): (tile: seq<string>)
    ensures 0 < |tile| && forall r :: 0 <= r < |tile| ==> |tile[r]| == 6
  {
    if id == 0 then TILE0 else if id == 1 then TILE1 else if id == 2 then TILE2 else if id == 3 then TILE3
    else if id == 4 then TILE4 else if id == 5 then TILE5 else if id == 6 then TILE6 else TILE7
  }

  /** A module of the tile, which repeats over the whole symbol. */
  predicate Marked(tile: seq<string>, x: nat, y: nat)
    requires 0 < |tile| && forall r :: 0 <= r < |tile| ==> |tile[r]| == 6
  {
    tile[y % |tile|][x % 6] == '#'
  }

  lemma ProductModulo(x: nat, y: nat, d: nat)
    requires 0 < d
    ensures y * x % d == (y % d) * (x % d) % d
  {
    var a, b, r, s := y / d, x / d, y % d, x % d;
    assert y == d * a + r && x == d * b + s;
    assert y * x == d * (a * (d * b + s)) + d * (b * r) + r * s;
    DivideUnique(d, a * (d * b + s) + b * r + r * s / d, r * s % d);
    assert y * x == d * (a * (d * b + s) + b * r + r * s / d) + r * s % d;
  }

  lemma SixModulo(x: nat, d: nat)
    requires d == 2 || d == 3
    ensures x % 6 % d == x % d
  {
    assert x == 6 * (x / 6) + x % 6;
  }

  lemma Tile0Is(x: nat, y: nat)
    requires x < 6 && y < 6
    ensures Flips(0, x, y) <==> Marked(Tile(0), x, y)
  {
  }

  lemma Tile1Is(x: nat, y: nat)
    requires x < 6 && y < 6
    ensures Flips(1, x, y) <==> Marked(Tile(1), x, y)
  {
  }

  lemma Tile2Is(x: nat, y: nat)
    requires x < 6 && y < 6
    ensures Flips(2, x, y) <==> Marked(Tile(2), x, y)
  {
  }

  lemma Tile3Is(x: nat, y: nat)
    requires x < 6 && y < 6
    ensures Flips(3, x, y) <==> Marked(Tile(3), x, y)
  {
  }

  lemma Tile4Row0(x: nat)
    requires x < 6
    ensures Flips(4, x, 0) <==> TILE4[0][x] == '#'
  {
  }

  lemma Tile4Row1(x: nat)
    requires x < 6
    ensures Flips(4, x, 1) <==> TILE4[1][x] == '#'
  {
  }

  lemma Tile4Row2(x: nat)
    requires x < 6
    ensures Flips(4, x, 2) <==> TILE4[2][x] == '#'
  {
  }

  lemma Tile4Row3(x: nat)
    requires x < 6
    ensures Flips(4, x, 3) <==> TILE4[3][x] == '#'
  {
  }

  lemma Tile4Is(x: nat, y: nat)
    requires x < 6 && y < 4
    ensures Flips(4, x, y) <==> Marked(Tile(4), x, y)
  {
    hide Flips;
    if y == 0 { Tile4Row0(x); } else if y == 1 { Tile4Row1(x); } else if y == 2 { Tile4Row2(x); }
    else { Tile4Row3(x); }
  }

  lemma Tile5Row0(x: nat)
    requires x < 6
    ensures Flips(5, x, 0) <==> TILE5[0][x] == '#'
  {
    assert 0 * x == 0;
  }

  lemma Tile5Row1(x: nat)
    requires x < 6
    ensures Flips(5, x, 1) <==> TILE5[1][x] == '#'
  {
    assert 1 * x == x;
  }

  lemma Tile5Row2(x: nat)
    requires x < 6
    ensures Flips(5, x, 2) <==> TILE5[2][x] == '#'
  {
    assert 2 * x == x + x;
  }

  lemma Tile5Row3(x: nat)
    requires x < 6
    ensures Flips(5, x, 3) <==> TILE5[3][x] == '#'
  {
    assert 3 * x == x + x + x;
  }

  lemma Tile5Row4(x: nat)
    requires x < 6
    ensures Flips(5, x, 4) <==> TILE5[4][x] == '#'
  {
    assert 4 * x == x + x + x + x;
  }

  lemma Tile5Row5(x: nat)
    requires x < 6
    ensures Flips(5, x, 5) <==> TILE5[5][x] == '#'
  {
    assert 5 * x == x + x + x + x + x;
  }

  lemma Tile5Is(x: nat, y: nat)
    requires x < 6 && y < 6
    ensures Flips(5, x, y) <==> Marked(Tile(5), x, y)
  {
    hide Flips;
    if y == 0 { Tile5Row0(x); } else if y == 1 { Tile5Row1(x); } else if y == 2 { Tile5Row2(x); }
    else if y == 3 { Tile5Row3(x); } else if y == 4 { Tile5Row4(x); } else { Tile5Row5(x); }
  }

  lemma Tile6Row0(x: nat)
    requires x < 6
    ensures Flips(6, x, 0) <==> TILE6[0][x] == '#'
  {
    assert 0 * x == 0;
  }

  lemma Tile6Row1(x: nat)
    requires x < 6
    ensures Flips(6, x, 1) <==> TILE6[1][x] == '#'
  {
    assert 1 * x == x;
  }

  lemma Tile6Row2(x: nat)
    requires x < 6
    ensures Flips(6, x, 2) <==> TILE6[2][x] == '#'
  {
    assert 2 * x == x + x;
  }

  lemma Tile6Row3(x: nat)
    requires x < 6
    ensures Flips(6, x, 3) <==> TILE6[3][x] == '#'
  {
    assert 3 * x == x + x + x;
  }

  lemma Tile6Row4(x: nat)
    requires x < 6
    ensures Flips(6, x, 4) <==> TILE6[4][x] == '#'
  {
    assert 4 * x == x + x + x + x;
  }

  lemma Tile6Row5(x: nat)
    requires x < 6
    ensures Flips(6, x, 5) <==> TILE6[5][x] == '#'
  {
    assert 5 * x == x + x + x + x + x;
  }

  lemma Tile6Is(x: nat, y: nat)
    requires x < 6 && y < 6
    ensures Flips(6, x, y) <==> Marked(Tile(6), x, y)
  {
    hide Flips;
    if y == 0 { Tile6Row0(x); } else if y == 1 { Tile6Row1(x); } else if y == 2 { Tile6Row2(x); }
    else if y == 3 { Tile6Row3(x); } else if y == 4 { Tile6Row4(x); } else { Tile6Row5(x); }
  }

  lemma Tile7Row0(x: nat)
    requires x < 6
    ensures Flips(7, x, 0) <==> TILE7[0][x] == '#'
  {
    assert 0 * x == 0;
  }

  lemma Tile7Row1(x: nat)
    requires x < 6
    ensures Flips(7, x, 1) <==> TILE7[1][x] == '#'
  {
    assert 1 * x == x;
  }

  lemma Tile7Row2(x: nat)
    requires x < 6
    ensures Flips(7, x, 2) <==> TILE7[2][x] == '#'
  {
    assert 2 * x == x + x;
  }

  lemma Tile7Row3(x: nat)
    requires x < 6
    ensures Flips(7, x, 3) <==> TILE7[3][x] == '#'
  {
    assert 3 * x == x + x + x;
  }

  lemma Tile7Row4(x: nat)
    requires x < 6
    ensures Flips(7, x, 4) <==> TILE7[4][x] == '#'
  {
    assert 4 * x == x + x + x + x;
  }

  lemma Tile7Row5(x: nat)
    requires x < 6
    ensures Flips(7, x, 5) <==> TILE7[5][x] == '#'
  {
    assert 5 * x == x + x + x + x + x;
  }

  lemma Tile7Is(x: nat, y: nat)
    requires x < 6 && y < 6
    ensures Flips(7, x, y) <==> Marked(Tile(7), x, y)
  {
    hide Flips;
    if y == 0 { Tile7Row0(x); } else if y == 1 { Tile7Row1(x); } else if y == 2 { Tile7Row2(x); }
    else if y == 3 { Tile7Row3(x); } else if y == 4 { Tile7Row4(x); } else { Tile7Row5(x); }
  }

  lemma SumModulo(x: nat, y: nat, d: nat)
    requires d == 2 || d == 3
    ensures (y % 6 + x % 6) % d == (y + x) % d
  {
    var k := x / 6 + y / 6;
    assert y + x == 6 * k + (y % 6 + x % 6);
    if d == 2 {
      assert y + x == 2 * (3 * k) + (y % 6 + x % 6);
    } else {
      assert y + x == 3 * (2 * k) + (y % 6 + x % 6);
    }
  }

  lemma SumPeriod(id: int, x: nat, y: nat)
    requires 0 <= id < 4
    ensures Flips(id, x, y) <==> Flips(id, x % 6, y % 6)
  {
    if id == 0 {
      SumModulo(x, y, 2);
    } else if id == 1 {
      SixModulo(y, 2);
    } else if id == 2 {
      SixModulo(x, 3);
    } else {
      SumModulo(x, y, 3);
    }
  }

  lemma BlockPeriod(x: nat, y: nat)
    ensures Flips(4, x, y) <==> Flips(4, x % 6, y % 4)
  {
    var a, b, r, s := x / 6, y / 4, x % 6, y % 4;
    assert x == 6 * a + r && y == 4 * b + s;
    assert y / 2 == 2 * b + s / 2 && x / 3 == 2 * a + r / 3;
  }

  lemma ProductSixModulo(x: nat, y: nat, d: nat)
    requires d == 2 || d == 3
    ensures (y % 6) * (x % 6) % d == y * x % d
  {
    SixModulo(x, d);
    SixModulo(y, d);
    ProductModulo(x, y, d);
    ProductModulo(x % 6, y % 6, d);
  }

  lemma ProductPeriod(id: int, x: nat, y: nat)
    requires 5 <= id < 8
    ensures Flips(id, x, y) <==> Flips(id, x % 6, y % 6)
  {
    ProductSixModulo(x, y, 2);
    ProductSixModulo(x, y, 3);
    SumModulo(x, y, 2);
  }

  /** Every mask has the period of its tile. */
  lemma MaskPeriod(id: int, x: nat, y: nat)
    requires 0 <= id < 8
    ensures Flips(id, x, y) <==> Flips(id, x % 6, y % |Tile(id)|)
  {
    assert |Tile(id)| == if id == 4 then 4 else 6;
    hide Tile, Flips;
    if id < 4 {
      SumPeriod(id, x, y);
    } else if id == 4 {
      BlockPeriod(x, y);
    } else {
      ProductPeriod(id, x, y);
    }
  }

  /** The masks are these pictures. */
  lemma MaskIsTile(id: int, x: nat, y: nat)
    requires 0 <= id < 8
    ensures Flips(id, x, y) <==> Marked(Tile(id), x, y)
  {
    MaskPeriod(id, x, y);
    var h := |Tile(id)|;
    assert h == if id == 4 then 4 else 6;
    hide Tile, Flips;
    var r, s := x % 6, y % h;
    assert r % 6 == r && s % h == s;
    if id == 0 { Tile0Is(r, s); } else if id == 1 { Tile1Is(r, s); } else if id == 2 { Tile2Is(r, s); }
    else if id == 3 { Tile3Is(r, s); } else if id == 4 { Tile4Is(r, s); } else if id == 5 { Tile5Is(r, s); }
    else if id == 6 { Tile6Is(r, s); } else { Tile7Is(r, s); }
  }

  /** A masked matrix: the free modules of the symbol under the picture are inverted, the others are as they were. */
  lemma MaskedShowsTile(pattern: Grid, placed: Grid, n: nat, id: int, c: Cell)
    requires Square(pattern, MAX_SIZE) && Square(placed, MAX_SIZE) && 0 <= id < 8
    requires InGrid(placed, c) && 0 <= At(placed, c) <= 1
    ensures At(Masked(pattern, placed, n, id), c) ==
            if c.x < n && c.y < n && At(pattern, c) == FREE && Marked(Tile(id), c.x, c.y) then 1 - At(placed, c)
            else At(placed, c)
  {
    MaskIsTile(id, c.x, c.y);
    hide Flips, Tile;
  }
}
