/** The grid world of the Bomberman arena: tile and bomb-timer grids, board
    generation from a breakable-wall pattern, and bomb resolution.

    Grids are indexed `g[x][y]` (column first), exactly as the C# arrays
    `TileGrid[x, y]` and `BombTimerGrid[x, y]`. The class keeps the two grids
    as `array2`s and is specified through `seq<seq<_>>` snapshots of them. */
module Environment {

  /** The kinds of tile a cell can hold. */
  datatype TileType = Walkable | Unbreakable | Breakable | Explosion

  /** The breakable-wall layouts a board can be generated with. */
  datatype BreakableWallPattern = Split | Border | Grid

  /** An integer grid position; +y is up and +x is right. */
  datatype Vec2 = Vec2(x: int, y: int)

  const Zero: Vec2 := Vec2(0, 0)

  /** The four axis directions. */
  datatype Direction = Up | Down | Left | Right

  /** The cell one step from `p` in direction `d` (`position + Vector2Int.up` and so on). */
  function Neighbor(p: Vec2, d: Direction): Vec2 {
    match d
    case Up => Vec2(p.x, p.y + 1)
    case Down => Vec2(p.x, p.y - 1)
    case Right => Vec2(p.x + 1, p.y)
    case Left => Vec2(p.x - 1, p.y)
  }

  function Min(a: int, b: int): int { if a <= b then a else b }
  function Max(a: int, b: int): int { if a >= b then a else b }
  function Abs(a: int): nat { if a < 0 then -a else a }
  function Ind(b: bool): nat { if b then 1 else 0 }

  /** C#'s `%`, which truncates toward zero (Dafny's `%` is Euclidean). */
  function CsRem(a: int, b: int): (r: int)
    requires b > 0
    ensures -b < r < b
    ensures a >= 0 ==> r == a % b
    ensures a < 0 ==> r <= 0
  {
    if a >= 0 then a % b else -((-a) % b)
  }

  // ---------------------------------------------------------------------
  // Value-level grids
  // ---------------------------------------------------------------------

  /** `g` has `w` columns of `h` cells each. */
  ghost predicate IsGrid<T>(g: seq<seq<T>>, w: nat, h: nat) {
    |g| == w && forall i :: 0 <= i < w ==> |g[i]| == h
  }

  /** Whether a position lies inside a `w` by `h` board. */
  predicate TileInBounds(p: Vec2, w: int, h: int) {
    0 <= p.x < w && 0 <= p.y < h
  }

  /** Whether `p` indexes a cell of `g`. */
  predicate InGrid<T>(g: seq<seq<T>>, p: Vec2) {
    0 <= p.x < |g| && 0 <= p.y < |g[p.x]|
  }

  /** The tile at `p`; anything off the board reads as an unbreakable wall. */
  function TileAt(g: seq<seq<TileType>>, p: Vec2): TileType {
    if InGrid(g, p) then g[p.x][p.y] else Unbreakable
  }

  /** The bomb timer at `p`; anything off the board reads as 0 (no bomb). */
  function TimerAt(t: seq<seq<nat>>, p: Vec2): nat {
    if InGrid(t, p) then t[p.x][p.y] else 0
  }

  /** `g` with the cell at `p` replaced by `v`; `g` itself when `p` is off the grid. */
  function SetCell<T>(g: seq<seq<T>>, p: Vec2, v: T): (r: seq<seq<T>>)
    ensures |r| == |g| && forall i {:trigger r[i]} :: 0 <= i < |g| ==> |r[i]| == |g[i]|
    ensures forall i, j {:trigger r[i][j]} :: 0 <= i < |g| && 0 <= j < |g[i]| ==>
      r[i][j] == if i == p.x && j == p.y then v else g[i][j]
  {
    if InGrid(g, p) then g[p.x := g[p.x][p.y := v]] else g
  }

  lemma GridExt<T>(a: seq<seq<T>>, b: seq<seq<T>>, w: nat, h: nat)
    requires IsGrid(a, w, h) && IsGrid(b, w, h)
    requires forall i, j :: 0 <= i < w && 0 <= j < h ==> a[i][j] == b[i][j]
    ensures a == b
  {
    forall i | 0 <= i < w ensures a[i] == b[i] {
      assert |a[i]| == |b[i]| == h;
    }
  }

  /** The contents of a two-dimensional array, column by column. */
  function Snapshot<T>(a: array2<T>): (g: seq<seq<T>>)
    reads a
    ensures IsGrid(g, a.Length0, a.Length1)
    ensures forall i, j :: 0 <= i < a.Length0 && 0 <= j < a.Length1 ==> g[i][j] == a[i, j]
  {
    seq(a.Length0, i requires 0 <= i < a.Length0 reads a => Column(a, i))
  }

  /** Column `i` of a two-dimensional array. */
  function Column<T>(a: array2<T>, i: nat): (c: seq<T>)
    requires i < a.Length0
    reads a
    ensures |c| == a.Length1 && forall j :: 0 <= j < a.Length1 ==> c[j] == a[i, j]
  {
    seq(a.Length1, j requires 0 <= j < a.Length1 reads a => a[i, j])
  }

  /** An array whose cells agree with a grid value has that value as its snapshot. */
  lemma SnapshotIs<T>(a: array2<T>, g: seq<seq<T>>)
    requires IsGrid(g, a.Length0, a.Length1)
    requires forall i, j :: 0 <= i < a.Length0 && 0 <= j < a.Length1 ==> g[i][j] == a[i, j]
    ensures Snapshot(a) == g
  {
    GridExt(Snapshot(a), g, a.Length0, a.Length1);
  }

  // ---------------------------------------------------------------------
  // Counting cells
  // ---------------------------------------------------------------------

  /** Number of occurrences of `v` in `s`. */
  function CountIn<T(==)>(s: seq<T>, v: T): nat {
    if s == [] then 0 else CountIn(s[..|s| - 1], v) + Ind(s[|s| - 1] == v)
  }

  /** Number of cells of `g` holding `v`. */
  function CountGrid<T(==)>(g: seq<seq<T>>, v: T): nat {
    if g == [] then 0 else CountGrid(g[..|g| - 1], v) + CountIn(g[|g| - 1], v)
  }

  lemma {:induction false} CountInUpdate<T>(s: seq<T>, k: nat, u: T, v: T)
    requires k < |s|
    ensures CountIn(s[k := u], v) == CountIn(s, v) - Ind(s[k] == v) + Ind(u == v)
  {
    var n := |s| - 1;
    if k == n {
      assert s[k := u][..n] == s[..n];
    } else {
      assert s[k := u][..n] == s[..n][k := u];
      CountInUpdate(s[..n], k, u, v);
    }
  }

  lemma {:induction false} CountGridUpdate<T>(g: seq<seq<T>>, k: nat, r: seq<T>, v: T)
    requires k < |g|
    ensures CountGrid(g[k := r], v) == CountGrid(g, v) - CountIn(g[k], v) + CountIn(r, v)
  {
    var n := |g| - 1;
    if k == n {
      assert g[k := r][..n] == g[..n];
    } else {
      assert g[k := r][..n] == g[..n][k := r];
      CountGridUpdate(g[..n], k, r, v);
    }
  }

  /** Replacing one cell changes the count of `v` by at most the cell itself. */
  lemma CountGridSetCell<T>(g: seq<seq<T>>, p: Vec2, u: T, v: T)
    ensures CountGrid(SetCell(g, p, u), v)
         == CountGrid(g, v) - Ind(InGrid(g, p) && g[p.x][p.y] == v) + Ind(InGrid(g, p) && u == v)
  {
    if InGrid(g, p) {
      CountGridUpdate(g, p.x, g[p.x][p.y := u], v);
      CountInUpdate(g[p.x], p.y, u, v);
    }
  }

  /** Two grids of the same shape that agree on which cells hold `v` hold equally many. */
  lemma {:induction false} CountGridSameMatches<T>(a: seq<seq<T>>, b: seq<seq<T>>, v: T)
    requires |a| == |b|
    requires forall i :: 0 <= i < |a| ==> |a[i]| == |b[i]|
    requires forall i, j :: 0 <= i < |a| && 0 <= j < |a[i]| ==> (a[i][j] == v <==> b[i][j] == v)
    ensures CountGrid(a, v) == CountGrid(b, v)
  {
    if a != [] {
      var n := |a| - 1;
      CountGridSameMatches(a[..n], b[..n], v);
      CountInSameMatches(a[n], b[n], v);
    }
  }

  lemma {:induction false} CountInSameMatches<T>(a: seq<T>, b: seq<T>, v: T)
    requires |a| == |b|
    requires forall j :: 0 <= j < |a| ==> (a[j] == v <==> b[j] == v)
    ensures CountIn(a, v) == CountIn(b, v)
  {
    if a != [] {
      var n := |a| - 1;
      CountInSameMatches(a[..n], b[..n], v);
    }
  }

  lemma {:induction false} CountInAll<T>(s: seq<T>, v: T)
    requires forall j :: 0 <= j < |s| ==> s[j] == v
    ensures CountIn(s, v) == |s|
  {
    if s != [] {
      CountInAll(s[..|s| - 1], v);
    }
  }

  lemma {:induction false} CountInFirstOnly<T>(s: seq<T>, v: T)
    requires |s| >= 1 && s[0] == v
    requires forall j :: 0 < j < |s| ==> s[j] != v
    ensures CountIn(s, v) == 1
  {
    if |s| == 1 {
      assert s[..0] == [];
    } else {
      CountInFirstOnly(s[..|s| - 1], v);
    }
  }

  // ---------------------------------------------------------------------
  // Generation (EnvironmentGenerator.cs:67-191)
  // ---------------------------------------------------------------------

  /** Whether generation puts a breakable wall at `p` on a `w` by `h` board.
      On the board, Border walls are exactly the cells off the interior, and
      Grid walls are the cells with x even and y odd (so never on row 0). */
  function CanSpawnBreakableWall(w: nat, h: nat, p: Vec2, pattern: BreakableWallPattern): (b: bool)
    ensures pattern == Border && TileInBounds(p, w, h) ==> (b <==> !(0 < p.x < w - 1 && 0 < p.y < h - 1))
    ensures pattern == Grid && p.x >= 0 && p.y >= 0 ==> (b <==> p.x % 2 == 0 && p.y % 2 == 1)
    ensures pattern == Grid && p.y == 0 ==> !b
  {
    match pattern
    case Split => (p.x < w / 2) != (p.y < h / 2)
    case Border => p.x == 0 || p.x == w - 1 || p.y == 0 || p.y == h - 1
    case Grid => if p.y == 0 then false else CsRem(p.x, 2) == 0 && CsRem(p.y, 2) == 1
  }

  /** The tile generation places at `p`. */
  function PatternTile(w: nat, h: nat, p: Vec2, pattern: BreakableWallPattern): TileType {
    if CanSpawnBreakableWall(w, h, p, pattern) then Breakable else Walkable
  }

  /** The whole board generation produces. */
  function PatternTiles(w: nat, h: nat, pattern: BreakableWallPattern): (g: seq<seq<TileType>>)
    ensures IsGrid(g, w, h)
    ensures forall i, j {:trigger g[i][j]} :: 0 <= i < w && 0 <= j < h ==> g[i][j] == PatternTile(w, h, Vec2(i, j), pattern)
    ensures forall i, j {:trigger g[i][j]} :: 0 <= i < w && 0 <= j < h ==> g[i][j] == Walkable || g[i][j] == Breakable
  {
    seq(w, i => seq(h, j => PatternTile(w, h, Vec2(i, j), pattern)))
  }

  /** A `w` by `h` grid of zero timers. */
  function ZeroTimers(w: nat, h: nat): (t: seq<seq<nat>>)
    ensures IsGrid(t, w, h)
    ensures forall i, j :: 0 <= i < w && 0 <= j < h ==> t[i][j] == 0
  {
    seq(w, i => seq(h, j => 0))
  }

  /** Where the agent spawns: the board centre for Border, the origin otherwise. */
  function GetSpawnPosition(w: nat, h: nat, pattern: BreakableWallPattern): (p: Vec2)
    ensures w >= 1 && h >= 1 ==> TileInBounds(p, w, h)
  {
    match pattern
    case Border => Vec2(w / 2, h / 2)
    case _ => Zero
  }

  /** The spawn cell is free of walls: for Grid always, for Split from 2 by 2
      boards up, for Border (whose centre is off the ring) from 3 by 3 up. */
  lemma SpawnIsWalkable(w: nat, h: nat, pattern: BreakableWallPattern)
    requires w >= 1 && h >= 1
    requires pattern == Split ==> w >= 2 && h >= 2
    requires pattern == Border ==> w >= 3 && h >= 3
    ensures TileAt(PatternTiles(w, h, pattern), GetSpawnPosition(w, h, pattern)) == Walkable
  {
    var p := GetSpawnPosition(w, h, pattern);
    assert TileInBounds(p, w, h);
    assert PatternTiles(w, h, pattern)[p.x][p.y] == PatternTile(w, h, p, pattern);
  }

  /** A generated Border board has exactly 2W + 2H - 4 breakable walls. */
  lemma BorderWallCount(w: nat, h: nat)
    requires w >= 2 && h >= 2
    ensures CountGrid(PatternTiles(w, h, Border), Breakable) == 2 * w + 2 * h - 4
  {
    var g := PatternTiles(w, h, Border);
    BorderPrefixCount(w, h, w - 1);
    assert g[..w][..w - 1] == g[..w - 1];
    assert g[..w] == g;
    BorderColumnCount(w, h, w - 1);
  }

  lemma BorderColumnCount(w: nat, h: nat, i: nat)
    requires w >= 2 && h >= 2 && i < w
    ensures CountIn(PatternTiles(w, h, Border)[i], Breakable) == if i == 0 || i == w - 1 then h else 2
  {
    var col := PatternTiles(w, h, Border)[i];
    if i == 0 || i == w - 1 {
      CountInAll(col, Breakable);
    } else {
      var n := h - 1;
      assert col[..n][..n - 1] == col[..n - 1];
      CountInFirstOnly(col[..n], Breakable);
    }
  }

  lemma {:induction false} BorderPrefixCount(w: nat, h: nat, k: nat)
    requires w >= 2 && h >= 2 && 1 <= k <= w - 1
    ensures CountGrid(PatternTiles(w, h, Border)[..k], Breakable) == h + 2 * (k - 1)
  {
    var g := PatternTiles(w, h, Border);
    assert g[..k][..k - 1] == g[..k - 1];
    BorderColumnCount(w, h, k - 1);
    if k > 1 {
      BorderPrefixCount(w, h, k - 1);
    } else {
      assert g[..0] == [];
    }
  }

  // ---------------------------------------------------------------------
  // Bomb resolution (EnvironmentGenerator.cs:193-261)
  // ---------------------------------------------------------------------

  /** What ClearExplosions does to one tile. */
  function ClearTile(t: TileType): TileType {
    if t == Explosion then Walkable else t
  }

  /** The board with every explosion turned back into a walkable tile. */
  function Cleared(g: seq<seq<TileType>>): (r: seq<seq<TileType>>)
    ensures |r| == |g| && forall i {:trigger r[i]} :: 0 <= i < |g| ==> |r[i]| == |g[i]|
    ensures forall i, j {:trigger r[i][j]} :: 0 <= i < |g| && 0 <= j < |g[i]| ==> r[i][j] == ClearTile(g[i][j])
  {
    seq(|g|, i requires 0 <= i < |g| => seq(|g[i]|, j requires 0 <= j < |g[i]| => ClearTile(g[i][j])))
  }

  /** Clearing turns exactly the explosions into walkable tiles, keeps every
      breakable wall, and clearing twice is clearing once. */
  lemma ClearedProperties(g: seq<seq<TileType>>)
    ensures forall i, j :: 0 <= i < |g| && 0 <= j < |g[i]| ==>
      Cleared(g)[i][j] != Explosion && (g[i][j] != Explosion ==> Cleared(g)[i][j] == g[i][j])
    ensures Cleared(Cleared(g)) == g ==> forall i, j :: 0 <= i < |g| && 0 <= j < |g[i]| ==> g[i][j] != Explosion
    ensures Cleared(Cleared(g)) == Cleared(g)
    ensures CountGrid(Cleared(g), Breakable) == CountGrid(g, Breakable)
  {
    var c := Cleared(g);
    var cc := Cleared(c);
    assert |cc| == |c|;
    forall i | 0 <= i < |c| ensures cc[i] == c[i] {
      assert |cc[i]| == |c[i]|;
    }
    CountGridSameMatches(Cleared(g), g, Breakable);
  }

  /** What one tick does to one bomb timer. */
  function TickTimer(t: nat): nat {
    if t == 0 then 0 else t - 1
  }

  /** Every armed timer one tick further down. */
  function Ticked(t: seq<seq<nat>>): (r: seq<seq<nat>>)
    ensures |r| == |t| && forall i {:trigger r[i]} :: 0 <= i < |t| ==> |r[i]| == |t[i]|
    ensures forall i, j {:trigger r[i][j]} :: 0 <= i < |t| && 0 <= j < |t[i]| ==> r[i][j] == TickTimer(t[i][j])
  {
    seq(|t|, i requires 0 <= i < |t| => seq(|t[i]|, j requires 0 <= j < |t[i]| => TickTimer(t[i][j])))
  }

  /** Whether `c` is `p` or one of its four axis neighbours. */
  predicate InCross(c: Vec2, p: Vec2) {
    (c.x == p.x && p.y - 1 <= c.y <= p.y + 1) || (c.y == p.y && p.x - 1 <= c.x <= p.x + 1)
  }

  /** Whether the bomb at `d` detonates on this tick: its timer is about to reach zero. */
  predicate Detonates(t: seq<seq<nat>>, d: Vec2) {
    TimerAt(t, d) == 1
  }

  /** Whether a bomb detonating on this tick covers `c` with its blast. */
  predicate Blasted(t: seq<seq<nat>>, c: Vec2) {
    Detonates(t, c) || Detonates(t, Neighbor(c, Up)) || Detonates(t, Neighbor(c, Down))
    || Detonates(t, Neighbor(c, Right)) || Detonates(t, Neighbor(c, Left))
  }

  /** The tiles after one StepBombs: blasted cells explode, the rest is cleared. */
  function Stepped(g: seq<seq<TileType>>, t: seq<seq<nat>>): (r: seq<seq<TileType>>)
    ensures |r| == |g| && forall i {:trigger r[i]} :: 0 <= i < |g| ==> |r[i]| == |g[i]|
    ensures forall i, j {:trigger r[i][j]} :: 0 <= i < |g| && 0 <= j < |g[i]| ==>
      r[i][j] == if Blasted(t, Vec2(i, j)) then Explosion else ClearTile(g[i][j])
  {
    seq(|g|, i requires 0 <= i < |g| =>
      seq(|g[i]|, j requires 0 <= j < |g[i]| =>
        if Blasted(t, Vec2(i, j)) then Explosion else ClearTile(g[i][j])))
  }
  /** The number of breakable walls one StepBombs breaks on tiles `g` and timers `t`. */
  function WallsBroken(g: seq<seq<TileType>>, t: seq<seq<nat>>): int {
    CountGrid(g, Breakable) - CountGrid(Stepped(g, t), Breakable)
  }


  /** A step starts by clearing old explosions, so clearing the board beforehand changes nothing. */
  lemma SteppedCleared(g: seq<seq<TileType>>, t: seq<seq<nat>>)
    ensures Stepped(Cleared(g), t) == Stepped(g, t)
  {
    var a, b := Stepped(Cleared(g), t), Stepped(g, t);
    forall i | 0 <= i < |g| ensures a[i] == b[i] {
      assert |a[i]| == |b[i]|;
    }
  }

  /** The board with `p`'s blast cross (clipped to the board) turned to explosions,
      written in the order the source writes the five cells. */
  function Blast(g: seq<seq<TileType>>, p: Vec2): (r: seq<seq<TileType>>)
    ensures |r| == |g| && forall i {:trigger r[i]} :: 0 <= i < |g| ==> |r[i]| == |g[i]|
    ensures forall i, j {:trigger r[i][j]} :: 0 <= i < |g| && 0 <= j < |g[i]| ==>
      r[i][j] == if InCross(Vec2(i, j), p) then Explosion else g[i][j]
  {
    seq(|g|, i requires 0 <= i < |g| =>
      seq(|g[i]|, j requires 0 <= j < |g[i]| => if InCross(Vec2(i, j), p) then Explosion else g[i][j]))
  }

  /** Setting a tile changes what TileAt reads at that cell only. */
  lemma TileAtSetCell(g: seq<seq<TileType>>, p: Vec2, v: TileType, q: Vec2)
    ensures TileAt(SetCell(g, p, v), q) == if q == p && InGrid(g, p) then v else TileAt(g, q)
  {
  }

  /** Turning one cell into an explosion removes that cell's wall, if any. */
  lemma ExplodeCellCount(g: seq<seq<TileType>>, q: Vec2)
    ensures CountGrid(SetCell(g, q, Explosion), Breakable) == CountGrid(g, Breakable) - Ind(TileAt(g, q) == Breakable)
  {
    CountGridSetCell(g, q, Explosion, Breakable);
  }

  /** The number of breakable walls among the five cells of `p`'s blast cross. */
  function CrossWalls(g: seq<seq<TileType>>, p: Vec2): nat {
    Ind(TileAt(g, p) == Breakable) + Ind(TileAt(g, Neighbor(p, Up)) == Breakable)
    + Ind(TileAt(g, Neighbor(p, Down)) == Breakable) + Ind(TileAt(g, Neighbor(p, Right)) == Breakable)
    + Ind(TileAt(g, Neighbor(p, Left)) == Breakable)
  }

  /** The five cells of `p`'s blast cross, in the order the source marks them. */
  function Cross(p: Vec2): seq<Vec2> {
    [p, Neighbor(p, Up), Neighbor(p, Down), Neighbor(p, Right), Neighbor(p, Left)]
  }

  /** `g` with every cell of `ps` turned into an explosion, one after the other. */
  function ExplodeAll(g: seq<seq<TileType>>, ps: seq<Vec2>): seq<seq<TileType>>
    decreases |ps|
  {
    if ps == [] then g else ExplodeAll(SetCell(g, ps[0], Explosion), ps[1..])
  }

  /** The number of breakable walls `g` holds at the cells of `ps`. */
  function WallsAt(g: seq<seq<TileType>>, ps: seq<Vec2>): nat
    decreases |ps|
  {
    if ps == [] then 0 else Ind(TileAt(g, ps[0]) == Breakable) + WallsAt(g, ps[1..])
  }

  /** Exploding a cell outside `ps` leaves the walls at `ps` as they were. */
  lemma {:induction false} WallsAtUnchanged(g: seq<seq<TileType>>, q: Vec2, ps: seq<Vec2>)
    requires q !in ps
    ensures WallsAt(SetCell(g, q, Explosion), ps) == WallsAt(g, ps)
    decreases |ps|
  {
    if ps != [] {
      TileAtSetCell(g, q, Explosion, ps[0]);
      WallsAtUnchanged(g, q, ps[1..]);
    }
  }

  /** Exploding distinct cells one after the other destroys exactly the walls
      those cells held. */
  lemma {:induction false} ExplodeAllCount(g: seq<seq<TileType>>, ps: seq<Vec2>)
    requires forall i, j :: 0 <= i < j < |ps| ==> ps[i] != ps[j]
    ensures CountGrid(g, Breakable) - CountGrid(ExplodeAll(g, ps), Breakable) == WallsAt(g, ps)
    decreases |ps|
  {
    if ps != [] {
      ExplodeCellCount(g, ps[0]);
      assert ps[0] !in ps[1..] by {
        forall k | 0 <= k < |ps[1..]| ensures ps[1..][k] != ps[0] {
          assert ps[1..][k] == ps[k + 1];
        }
      }
      WallsAtUnchanged(g, ps[0], ps[1..]);
      ExplodeAllCount(SetCell(g, ps[0], Explosion), ps[1..]);
    }
  }

  /** Exploding the cells of `ps` turns exactly those cells into explosions. */
  lemma {:induction false} ExplodeAllCells(g: seq<seq<TileType>>, ps: seq<Vec2>)
    ensures |ExplodeAll(g, ps)| == |g| && forall i {:trigger ExplodeAll(g, ps)[i]} :: 0 <= i < |g| ==> |ExplodeAll(g, ps)[i]| == |g[i]|
    ensures forall i, j {:trigger ExplodeAll(g, ps)[i][j]} :: 0 <= i < |g| && 0 <= j < |g[i]| ==>
      ExplodeAll(g, ps)[i][j] == if Vec2(i, j) in ps then Explosion else g[i][j]
    decreases |ps|
  {
    if ps != [] {
      var g1 := SetCell(g, ps[0], Explosion);
      ExplodeAllCells(g1, ps[1..]);
      forall i, j | 0 <= i < |g| && 0 <= j < |g[i]|
        ensures ExplodeAll(g, ps)[i][j] == if Vec2(i, j) in ps then Explosion else g[i][j]
      {
        assert Vec2(i, j) in ps <==> Vec2(i, j) == ps[0] || Vec2(i, j) in ps[1..];
      }
    }
  }

  /** A blast explodes the cells of its cross one after the other. */
  lemma BlastChain(g: seq<seq<TileType>>, p: Vec2)
    ensures Blast(g, p) == ExplodeAll(g, Cross(p))
  {
    ExplodeAllCells(g, Cross(p));
    var g5 := ExplodeAll(g, Cross(p));
    forall i | 0 <= i < |g| ensures Blast(g, p)[i] == g5[i] {
      forall j | 0 <= j < |g[i]| ensures Blast(g, p)[i][j] == g5[i][j] {
        assert InCross(Vec2(i, j), p) <==> Vec2(i, j) in Cross(p);
      }
    }
  }

  /** CrossWalls counts the walls at the five cells of the cross. */
  lemma CrossWallsAt(g: seq<seq<TileType>>, p: Vec2)
    ensures CrossWalls(g, p) == WallsAt(g, Cross(p))
  {
    var c := Cross(p);
    assert WallsAt(g, c[4..]) == Ind(TileAt(g, c[4]) == Breakable) by { assert c[4..][1..] == []; }
    assert WallsAt(g, c[3..]) == Ind(TileAt(g, c[3]) == Breakable) + WallsAt(g, c[4..]) by { assert c[3..][1..] == c[4..]; }
    assert WallsAt(g, c[2..]) == Ind(TileAt(g, c[2]) == Breakable) + WallsAt(g, c[3..]) by { assert c[2..][1..] == c[3..]; }
    assert WallsAt(g, c[1..]) == Ind(TileAt(g, c[1]) == Breakable) + WallsAt(g, c[2..]) by { assert c[1..][1..] == c[2..]; }
  }

  /** One blast destroys exactly the breakable walls of its cross, each once. */
  lemma BlastCount(g: seq<seq<TileType>>, p: Vec2)
    ensures CountGrid(g, Breakable) - CountGrid(Blast(g, p), Breakable) == CrossWalls(g, p)
  {
    BlastChain(g, p);
    CrossWallsAt(g, p);
    ExplodeAllCount(g, Cross(p));
  }

  /** No two cells of the board detonate on the same tick. */
  ghost predicate AtMostOneDetonation(t: seq<seq<nat>>) {
    forall i1, j1, i2, j2 ::
      (0 <= i1 < |t| && 0 <= j1 < |t[i1]| && 0 <= i2 < |t| && 0 <= j2 < |t[i2]|
       && t[i1][j1] == 1 && t[i2][j2] == 1) ==> i1 == i2 && j1 == j2
  }

  /** `d` comes before cell (x, y) in the column-major scan of StepBombs. */
  predicate Before(d: Vec2, x: int, y: int) {
    d.x < x || (d.x == x && d.y < y)
  }

  /** Whether the scan has already detonated a bomb covering `c` when it reaches (x, y). */
  predicate BlastedBefore(t: seq<seq<nat>>, c: Vec2, x: int, y: int) {
    (Detonates(t, c) && Before(c, x, y))
    || (Detonates(t, Neighbor(c, Up)) && Before(Neighbor(c, Up), x, y))
    || (Detonates(t, Neighbor(c, Down)) && Before(Neighbor(c, Down), x, y))
    || (Detonates(t, Neighbor(c, Right)) && Before(Neighbor(c, Right), x, y))
    || (Detonates(t, Neighbor(c, Left)) && Before(Neighbor(c, Left), x, y))
  }

  /** Moving the scan one cell down the column adds exactly the cross of the
      bomb at that cell, if it detonates. */
  lemma BlastedBeforeAdvance(t: seq<seq<nat>>, c: Vec2, x: int, y: int)
    ensures BlastedBefore(t, c, x, y + 1)
        <==> BlastedBefore(t, c, x, y) || (Detonates(t, Vec2(x, y)) && InCross(c, Vec2(x, y)))
  {
  }

  /** A bomb off the board never detonates, so the scan's start covers nothing
      and its end covers exactly the blasted cells. */
  lemma BlastedBeforeEnds(t: seq<seq<nat>>, w: nat, h: nat, c: Vec2)
    requires IsGrid(t, w, h)
    ensures !BlastedBefore(t, c, 0, 0)
    ensures BlastedBefore(t, c, w, 0) == Blasted(t, c)
  {
  }

  /** What the StepBombs scan carries from cell to cell: the two grids, the
      running total of broken walls and the breakable-wall counter. */
  datatype ScanState = ScanState(tiles: seq<seq<TileType>>, timers: seq<seq<nat>>, broken: nat, counter: int)

  /** One cell of the StepBombs scan, as the source writes it: an armed bomb
      ticks; when it reaches zero, the walls of its cross are added to the
      running total, the running total (not this bomb's own count) is taken
      off the wall counter, and the cross explodes. */
  function VisitCellV(s: ScanState, p: Vec2): (r: ScanState)
    ensures r.broken >= s.broken
    ensures TimerAt(s.timers, p) != 1 ==> r.tiles == s.tiles && r.broken == s.broken && r.counter == s.counter
    ensures TimerAt(s.timers, p) == 1 ==>
      r.tiles == Blast(s.tiles, p) && r.broken - s.broken == CrossWalls(s.tiles, p) && r.counter == s.counter - r.broken
  {
    var timer := TimerAt(s.timers, p);
    if timer == 0 then s
    else if timer - 1 != 0 then s.(timers := SetCell(s.timers, p, timer - 1))
    else
      var total := s.broken + CrossWalls(s.tiles, p);
      ScanState(Blast(s.tiles, p), SetCell(s.timers, p, 0), total, s.counter - total)
  }

  /** The wall count of a one-column board of four cells. */
  lemma CountColumnOfFour(a: TileType, b: TileType, c: TileType, d: TileType)
    ensures CountGrid([[a, b, c, d]], Breakable)
         == Ind(a == Breakable) + Ind(b == Breakable) + Ind(c == Breakable) + Ind(d == Breakable)
  {
    var col: seq<TileType> := [a, b, c, d];
    var g: seq<seq<TileType>> := [col];
    assert g[..0] == [];
    assert CountGrid(g, Breakable) == CountIn(col, Breakable);
    assert col[..3] == [a, b, c] && [a, b, c][..2] == [a, b] && [a, b][..1] == [a] && [a][..0] == [];
    assert CountIn([a], Breakable) == Ind(a == Breakable);
    assert CountIn([a, b], Breakable) == CountIn([a], Breakable) + Ind(b == Breakable);
    assert CountIn([a, b, c], Breakable) == CountIn([a, b], Breakable) + Ind(c == Breakable);
  }

  /** Two bombs going off in one step make the counter drift: on a one-column
      board with two walls and two bombs at timer 1, the scan breaks both walls
      (its running total ends at 2) but takes 1 + 2 = 3 off the counter, which
      ends at -1 while no breakable wall is left. */
  lemma TwoBombsCounterDrift(g: seq<seq<TileType>>, t: seq<seq<nat>>)
    requires g == [[Walkable, Breakable, Breakable, Walkable]] && t == [[1, 0, 0, 1]]
    ensures var s := VisitCellV(VisitCellV(VisitCellV(VisitCellV(ScanState(g, t, 0, 2),
                       Vec2(0, 0)), Vec2(0, 1)), Vec2(0, 2)), Vec2(0, 3));
            CountGrid(g, Breakable) == 2 && s.broken == 2 && CountGrid(s.tiles, Breakable) == 0 && s.counter == -1
  {
    CountColumnOfFour(Walkable, Breakable, Breakable, Walkable);
    var s1 := VisitCellV(ScanState(g, t, 0, 2), Vec2(0, 0));
    assert TimerAt(t, Vec2(0, 0)) == 1;
    assert CrossWalls(g, Vec2(0, 0)) == 1;
    var g1 := Blast(g, Vec2(0, 0));
    assert g1[0][0] == Explosion && g1[0][1] == Explosion && g1[0][2] == Breakable && g1[0][3] == Walkable;
    assert |g1| == 1 && |g1[0]| == 4;
    assert g1[0] == [Explosion, Explosion, Breakable, Walkable];
    assert g1 == [[Explosion, Explosion, Breakable, Walkable]];
    var t1 := SetCell(t, Vec2(0, 0), 0);
    assert s1 == ScanState(g1, t1, 1, 1);
    assert t1[0][1] == 0 && t1[0][2] == 0 && t1[0][3] == 1;
    var s3 := VisitCellV(VisitCellV(s1, Vec2(0, 1)), Vec2(0, 2));
    assert s3 == s1;
    assert CrossWalls(g1, Vec2(0, 3)) == 1;
    var g2 := Blast(g1, Vec2(0, 3));
    assert g2[0][0] == Explosion && g2[0][1] == Explosion && g2[0][2] == Explosion && g2[0][3] == Explosion;
    assert |g2| == 1 && |g2[0]| == 4;
    assert g2[0] == [Explosion, Explosion, Explosion, Explosion];
    assert g2 == [[Explosion, Explosion, Explosion, Explosion]];
    CountColumnOfFour(Explosion, Explosion, Explosion, Explosion);
  }

  /** The timers when the scan reaches (x, y): the cells it passed are ticked. */
  ghost predicate TimersScanned(ts: seq<seq<nat>>, t0: seq<seq<nat>>, w: nat, h: nat, x: int, y: int) {
    IsGrid(ts, w, h) && IsGrid(t0, w, h)
    && forall i, j {:trigger ts[i][j]} :: 0 <= i < w && 0 <= j < h ==>
         ts[i][j] == if Before(Vec2(i, j), x, y) then TickTimer(t0[i][j]) else t0[i][j]
  }

  /** The tiles when the scan reaches (x, y): the crosses of the bombs it has
      detonated are explosions, every other cell is as it started. */
  ghost predicate TilesScanned(tiles: seq<seq<TileType>>, g0: seq<seq<TileType>>, t0: seq<seq<nat>>, w: nat, h: nat, x: int, y: int) {
    IsGrid(tiles, w, h) && IsGrid(g0, w, h) && IsGrid(t0, w, h)
    && forall i, j {:trigger tiles[i][j]} :: 0 <= i < w && 0 <= j < h ==>
         tiles[i][j] == if BlastedBefore(t0, Vec2(i, j), x, y) then Explosion else g0[i][j]
  }

  /** The counters when the scan reaches (x, y), having detonated `n` bombs,
      the first at `first` and the last at `last`: the running total is the
      number of walls gone; the counter has lost at least that many, and
      exactly that many while at most one bomb has gone off. */
  ghost predicate CountsScanned(s: ScanState, g0: seq<seq<TileType>>, t0: seq<seq<nat>>, c0: int,
                                x: int, y: int, n: nat, first: Vec2, last: Vec2) {
    && s.broken == CountGrid(g0, Breakable) - CountGrid(s.tiles, Breakable)
    && c0 - s.counter >= s.broken
    && (n == 0 ==> s.broken == 0 && s.counter == c0)
    && (n >= 1 ==> Detonates(t0, first) && Detonates(t0, last) && Before(first, x, y) && Before(last, x, y))
    && (n == 1 ==> c0 - s.counter == s.broken)
    && (n >= 2 ==> first != last)
  }

  /** How many bombs the scan has detonated so far, and where the first and the last were. */
  datatype Detonations = Detonations(count: nat, first: Vec2, last: Vec2)

  /** The whole scan invariant at (x, y). */
  ghost predicate Scanned(s: ScanState, g0: seq<seq<TileType>>, t0: seq<seq<nat>>, w: nat, h: nat, c0: int,
                          x: int, y: int, f: Detonations) {
    match f
    case Detonations(n, first, last) =>
      TimersScanned(s.timers, t0, w, h, x, y) && TilesScanned(s.tiles, g0, t0, w, h, x, y)
      && CountsScanned(s, g0, t0, c0, x, y, n, first, last)
  }

  /** Visiting (x, y) ticks exactly that timer. */
  lemma TimersStep(ts: seq<seq<nat>>, ts': seq<seq<nat>>, t0: seq<seq<nat>>, w: nat, h: nat, x: nat, y: nat)
    requires x < w && y < h && TimersScanned(ts, t0, w, h, x, y)
    requires IsGrid(ts', w, h)
    requires forall i, j :: 0 <= i < w && 0 <= j < h ==>
      ts'[i][j] == if i == x && j == y then TickTimer(ts[x][y]) else ts[i][j]
    ensures TimersScanned(ts', t0, w, h, x, y + 1)
  {
    forall i, j | 0 <= i < w && 0 <= j < h
      ensures ts'[i][j] == if Before(Vec2(i, j), x, y + 1) then TickTimer(t0[i][j]) else t0[i][j]
    {
      assert ts[i][j] == if Before(Vec2(i, j), x, y) then TickTimer(t0[i][j]) else t0[i][j];
    }
  }

  /** Visiting (x, y) blasts its cross exactly when its bomb detonates. */
  lemma TilesStep(tiles: seq<seq<TileType>>, g0: seq<seq<TileType>>, t0: seq<seq<nat>>, w: nat, h: nat, x: nat, y: nat)
    requires x < w && y < h && TilesScanned(tiles, g0, t0, w, h, x, y)
    ensures TilesScanned(if t0[x][y] == 1 then Blast(tiles, Vec2(x, y)) else tiles, g0, t0, w, h, x, y + 1)
  {
    var tiles' := if t0[x][y] == 1 then Blast(tiles, Vec2(x, y)) else tiles;
    forall i, j | 0 <= i < w && 0 <= j < h
      ensures tiles'[i][j] == if BlastedBefore(t0, Vec2(i, j), x, y + 1) then Explosion else g0[i][j]
    {
      assert tiles[i][j] == if BlastedBefore(t0, Vec2(i, j), x, y) then Explosion else g0[i][j];
      BlastedBeforeAdvance(t0, Vec2(i, j), x, y);
    }
  }

  /** Visiting (x, y) adds the walls of a detonating cross to the running total
      and takes the running total off the counter. */
  lemma CountsStep(s: ScanState, g0: seq<seq<TileType>>, t0: seq<seq<nat>>, w: nat, h: nat, c0: int,
                   x: nat, y: nat, f: Detonations)
    returns (f': Detonations)
    requires x < w && y < h && IsGrid(t0, w, h) && TimerAt(s.timers, Vec2(x, y)) == t0[x][y]
    requires CountsScanned(s, g0, t0, c0, x, y, f.count, f.first, f.last)
    ensures CountsScanned(VisitCellV(s, Vec2(x, y)), g0, t0, c0, x, y + 1, f'.count, f'.first, f'.last)
  {
    var p := Vec2(x, y);
    f' := f;
    if t0[x][y] == 1 {
      BlastCount(s.tiles, p);
      if f.count == 0 {
        f' := Detonations(1, p, p);
      } else {
        f' := Detonations(f.count + 1, f.first, p);
      }
    }
  }

  /** Before the scan starts nothing is ticked or blasted. */
  lemma ScanStart(s0: ScanState, g0: seq<seq<TileType>>, t0: seq<seq<nat>>, w: nat, h: nat, c0: int)
    requires IsGrid(g0, w, h) && IsGrid(t0, w, h) && s0 == ScanState(g0, t0, 0, c0)
    ensures Scanned(s0, g0, t0, w, h, c0, 0, 0, Detonations(0, Zero, Zero))
  {
    forall i, j | 0 <= i < w && 0 <= j < h ensures !BlastedBefore(t0, Vec2(i, j), 0, 0) {
      BlastedBeforeEnds(t0, w, h, Vec2(i, j));
    }
  }

  /** One visit keeps all three parts of the scan invariant. */
  lemma VisitPreserves(s: ScanState, g0: seq<seq<TileType>>, t0: seq<seq<nat>>, w: nat, h: nat, c0: int,
                       x: nat, y: nat, f: Detonations)
    returns (f': Detonations)
    requires x < w && y < h
    requires Scanned(s, g0, t0, w, h, c0, x, y, f)
    ensures Scanned(VisitCellV(s, Vec2(x, y)), g0, t0, w, h, c0, x, y + 1, f')
  {
    var p := Vec2(x, y);
    assert TimerAt(s.timers, p) == t0[x][y];
    TimersStep(s.timers, VisitCellV(s, p).timers, t0, w, h, x, y);
    TilesStep(s.tiles, g0, t0, w, h, x, y);
    f' := CountsStep(s, g0, t0, w, h, c0, x, y, f);
  }

  /** Finishing column `x` is starting column x + 1: nothing lies past the top of the board. */
  lemma ColumnDone(s: ScanState, g0: seq<seq<TileType>>, t0: seq<seq<nat>>, w: nat, h: nat, c0: int,
                   x: nat, f: Detonations)
    requires Scanned(s, g0, t0, w, h, c0, x, h, f)
    ensures Scanned(s, g0, t0, w, h, c0, x + 1, 0, f)
  {
    forall i, j | 0 <= i < w && 0 <= j < h
      ensures BlastedBefore(t0, Vec2(i, j), x, h) == BlastedBefore(t0, Vec2(i, j), x + 1, 0)
    {
    }
    forall i, j | 0 <= i < w && 0 <= j < h
      ensures s.tiles[i][j] == if BlastedBefore(t0, Vec2(i, j), x + 1, 0) then Explosion else g0[i][j]
    {
      assert s.tiles[i][j] == if BlastedBefore(t0, Vec2(i, j), x, h) then Explosion else g0[i][j];
    }
  }

  /** A scan that has passed every cell of the cleared board holds the ticked
      timers and the board Stepped(g, t0); its running total is the number of
      walls destroyed, and the counter has lost at least that many, exactly
      that many when at most one bomb detonated. */
  lemma ScanComplete(g: seq<seq<TileType>>, t0: seq<seq<nat>>, w: nat, h: nat, c0: int, s: ScanState,
                     f: Detonations)
    requires IsGrid(g, w, h)
    requires Scanned(s, Cleared(g), t0, w, h, c0, w, 0, f)
    ensures s.tiles == Stepped(g, t0) && s.timers == Ticked(t0)
    ensures s.broken == CountGrid(g, Breakable) - CountGrid(Stepped(g, t0), Breakable)
    ensures c0 - s.counter >= s.broken
    ensures AtMostOneDetonation(t0) ==> c0 - s.counter == s.broken
  {
    ClearedProperties(g);
    ScanTilesFinal(s.tiles, g, t0, w, h);
    ScanTimersFinal(s.timers, t0, w, h);
    if AtMostOneDetonation(t0) && f.count >= 2 {
      assert false;
    }
  }

  /** At the end of the scan the board is Stepped(g, t0). */
  lemma ScanTilesFinal(tiles: seq<seq<TileType>>, g: seq<seq<TileType>>, t0: seq<seq<nat>>, w: nat, h: nat)
    requires TilesScanned(tiles, Cleared(g), t0, w, h, w, 0) && IsGrid(g, w, h)
    ensures tiles == Stepped(g, t0)
  {
    forall i, j | 0 <= i < w && 0 <= j < h ensures tiles[i][j] == Stepped(g, t0)[i][j] {
      BlastedBeforeEnds(t0, w, h, Vec2(i, j));
      assert tiles[i][j] == if BlastedBefore(t0, Vec2(i, j), w, 0) then Explosion else Cleared(g)[i][j];
    }
    GridExt(tiles, Stepped(g, t0), w, h);
  }

  /** At the end of the scan every timer is ticked. */
  lemma ScanTimersFinal(ts: seq<seq<nat>>, t0: seq<seq<nat>>, w: nat, h: nat)
    requires TimersScanned(ts, t0, w, h, w, 0)
    ensures ts == Ticked(t0)
  {
    forall i, j | 0 <= i < w && 0 <= j < h ensures ts[i][j] == Ticked(t0)[i][j] {
      assert Before(Vec2(i, j), w, 0);
    }
    GridExt(ts, Ticked(t0), w, h);
  }

  // ---------------------------------------------------------------------
  // The generator object
  // ---------------------------------------------------------------------

  /** The live board: size, pattern, the two grids and the breakable-wall counter. */
  class EnvironmentGenerator {
    var width: nat
    var height: nat
    var breakableWallPattern: BreakableWallPattern
    var tileGrid: array2<TileType>
    var bombTimerGrid: array2<nat>
    var breakableWallCount: int

    ghost predicate Valid()
      reads this`width, this`height, this`tileGrid, this`bombTimerGrid
    {
      tileGrid.Length0 == width && tileGrid.Length1 == height
      && bombTimerGrid.Length0 == width && bombTimerGrid.Length1 == height
    }

    /** The tile grid as a value. */
    function Tiles(): seq<seq<TileType>>
      reads this`tileGrid, tileGrid
    {
      Snapshot(tileGrid)
    }

    /** The bomb-timer grid as a value. */
    function Timers(): seq<seq<nat>>
      reads this`bombTimerGrid, bombTimerGrid
    {
      Snapshot(bombTimerGrid)
    }

    /** A generator whose board has already been generated once. */
    constructor (w: nat, h: nat, pattern: BreakableWallPattern)
      ensures Valid() && width == w && height == h && breakableWallPattern == pattern
      ensures Tiles() == PatternTiles(w, h, pattern) && Timers() == ZeroTimers(w, h)
      ensures breakableWallCount == CountGrid(Tiles(), Breakable)
    {
      width, height, breakableWallPattern := w, h, pattern;
      tileGrid := new TileType[0, 0];
      bombTimerGrid := new nat[0, 0];
      breakableWallCount := 0;
      new;
      var _ := GenerateEnvironment();
    }

    /** The tile at `p`, with everything off the board an unbreakable wall. */
    function GetTileType(p: Vec2): (t: TileType)
      requires Valid()
      reads this`width, this`height, this`tileGrid, this`bombTimerGrid, tileGrid
      ensures !TileInBounds(p, width, height) ==> t == Unbreakable
      ensures TileInBounds(p, width, height) ==> t == tileGrid[p.x, p.y]
      ensures t == TileAt(Tiles(), p)
    {
      if !TileInBounds(p, width, height) then Unbreakable else tileGrid[p.x, p.y]
    }

    /** The bomb timer at `p`, 0 everywhere off the board. */
    function GetBombTimer(p: Vec2): (t: nat)
      requires Valid()
      reads this`width, this`height, this`tileGrid, this`bombTimerGrid, bombTimerGrid
      ensures !TileInBounds(p, width, height) ==> t == 0
      ensures TileInBounds(p, width, height) ==> t == bombTimerGrid[p.x, p.y]
      ensures t == TimerAt(Timers(), p)
    {
      if !TileInBounds(p, width, height) then 0 else bombTimerGrid[p.x, p.y]
    }

    /** Resizes the board and generates a new one. */
    method SetSize(x: nat, y: nat) returns (spawn: Vec2)
      modifies this
      ensures Valid() && width == x && height == y
      ensures breakableWallPattern == old(breakableWallPattern)
      ensures fresh(tileGrid) && fresh(bombTimerGrid)
      ensures Tiles() == PatternTiles(x, y, breakableWallPattern) && Timers() == ZeroTimers(x, y)
      ensures breakableWallCount == CountGrid(Tiles(), Breakable)
      ensures spawn == GetSpawnPosition(x, y, breakableWallPattern)
    {
      width, height := x, y;
      spawn := GenerateEnvironment();
    }

    /** Builds fresh grids holding the pattern's walls and no bombs, counts the
        walls, and returns the spawn position. */
    method GenerateEnvironment() returns (spawn: Vec2)
      modifies this
      ensures Valid() && fresh(tileGrid) && fresh(bombTimerGrid)
      ensures width == old(width) && height == old(height)
      ensures breakableWallPattern == old(breakableWallPattern)
      ensures Tiles() == PatternTiles(width, height, breakableWallPattern)
      ensures Timers() == ZeroTimers(width, height)
      ensures breakableWallCount == CountGrid(Tiles(), Breakable)
      ensures spawn == GetSpawnPosition(width, height, breakableWallPattern)
    {
      var w, h, pattern := width, height, breakableWallPattern;
      var tiles := new TileType[w, h]((i, j) => Walkable);
      var timers := new nat[w, h]((i, j) => 0);
      tileGrid, bombTimerGrid := tiles, timers;
      SnapshotIs(timers, ZeroTimers(w, h));
      breakableWallCount := 0;
      FillWalls();
      spawn := GetSpawnPosition(w, h, pattern);
    }

    /** Writes the pattern's walls into the tile grid column by column, adding
        each wall placed to the counter. */
    method FillWalls()
      requires Valid()
      modifies this`breakableWallCount, tileGrid
      ensures Tiles() == PatternTiles(width, height, breakableWallPattern)
      ensures breakableWallCount == old(breakableWallCount) + CountGrid(Tiles(), Breakable)
    {
      ghost var p := PatternTiles(width, height, breakableWallPattern);
      var x := 0;
      while x < width
        invariant 0 <= x <= width
        invariant forall i, j :: 0 <= i < x && 0 <= j < height ==> tileGrid[i, j] == p[i][j]
        invariant breakableWallCount == old(breakableWallCount) + CountGrid(p[..x], Breakable)
      {
        FillColumn(x);
        assert p[..x + 1][..x] == p[..x];
        x := x + 1;
      }
      assert p[..width] == p;
      SnapshotIs(tileGrid, p);
    }

    /** Fills column `x` with the pattern's walls, counting each wall placed. */
    method FillColumn(x: nat)
      requires Valid() && x < width
      modifies this`breakableWallCount, tileGrid
      ensures forall i, j {:trigger tileGrid[i, j]} :: 0 <= i < width && 0 <= j < height ==>
        tileGrid[i, j] == if i == x then PatternTile(width, height, Vec2(i, j), breakableWallPattern) else old(tileGrid[i, j])
      ensures breakableWallCount == old(breakableWallCount) + CountIn(PatternTiles(width, height, breakableWallPattern)[x], Breakable)
    {
      ghost var col := PatternTiles(width, height, breakableWallPattern)[x];
      var y := 0;
      while y < height
        invariant 0 <= y <= height
        invariant forall i, j :: 0 <= i < width && 0 <= j < height ==>
          tileGrid[i, j] == if i == x && j < y then col[j] else old(tileGrid[i, j])
        invariant breakableWallCount == old(breakableWallCount) + CountIn(col[..y], Breakable)
      {
        assert col[..y + 1][..y] == col[..y];
        assert col[y] == PatternTile(width, height, Vec2(x, y), breakableWallPattern);
        assert CountIn(col[..y + 1], Breakable) == CountIn(col[..y], Breakable) + Ind(col[y] == Breakable);
        if !CanSpawnBreakableWall(width, height, Vec2(x, y), breakableWallPattern) {
          tileGrid[x, y] := Walkable;
        } else {
          tileGrid[x, y] := Breakable;
          breakableWallCount := breakableWallCount + 1;
        }
        y := y + 1;
      }
      assert col[..height] == col;
    }

    /** Turns every explosion back into a walkable tile. */
    method ClearExplosions()
      requires Valid()
      modifies tileGrid
      ensures Tiles() == Cleared(old(Tiles()))
    {
      var x := 0;
      while x < width
        invariant 0 <= x <= width
        invariant forall i, j :: 0 <= i < width && 0 <= j < height ==>
          tileGrid[i, j] == if i < x then ClearTile(old(tileGrid[i, j])) else old(tileGrid[i, j])
      {
        var y := 0;
        while y < height
          invariant 0 <= y <= height
          invariant forall i, j :: 0 <= i < width && 0 <= j < height ==>
            tileGrid[i, j] == if i < x || (i == x && j < y) then ClearTile(old(tileGrid[i, j])) else old(tileGrid[i, j])
        {
          if tileGrid[x, y] == Explosion {
            tileGrid[x, y] := Walkable;
          }
          y := y + 1;
        }
        x := x + 1;
      }
      GridExt(Tiles(), Cleared(old(Tiles())), width, height);
    }

    /** Writes one tile of the board. */
    method SetTile(q: Vec2, v: TileType)
      requires Valid() && TileInBounds(q, width, height)
      modifies tileGrid
      ensures Tiles() == SetCell(old(Tiles()), q, v)
    {
      tileGrid[q.x, q.y] := v;
      GridExt(Tiles(), SetCell(old(Tiles()), q, v), width, height);
    }

    /** Writes one bomb timer of the board. */
    method SetBombTimer(q: Vec2, v: nat)
      requires Valid() && TileInBounds(q, width, height)
      modifies bombTimerGrid
      ensures Timers() == SetCell(old(Timers()), q, v)
    {
      bombTimerGrid[q.x, q.y] := v;
      GridExt(Timers(), SetCell(old(Timers()), q, v), width, height);
    }

    /** The tile array holds exactly the grid `g`. */
    ghost predicate TilesAre(g: seq<seq<TileType>>)
      reads this`width, this`height, this`tileGrid, this`bombTimerGrid, tileGrid
    {
      Valid() && IsGrid(g, width, height)
      && forall i, j :: 0 <= i < width && 0 <= j < height ==> tileGrid[i, j] == g[i][j]
    }

    /** The timer array holds exactly the grid `t`. */
    ghost predicate TimersAre(t: seq<seq<nat>>)
      reads this`width, this`height, this`tileGrid, this`bombTimerGrid, bombTimerGrid
    {
      Valid() && IsGrid(t, width, height)
      && forall i, j :: 0 <= i < width && 0 <= j < height ==> bombTimerGrid[i, j] == t[i][j]
    }

    /** The arrays and the counter hold exactly the scan state `s`. */
    ghost predicate Holds(s: ScanState)
      reads this`width, this`height, this`tileGrid, this`bombTimerGrid, this`breakableWallCount, tileGrid, bombTimerGrid
    {
      TilesAre(s.tiles) && TimersAre(s.timers) && s.counter == breakableWallCount
    }

    /** The number of breakable walls in `p`'s blast cross (EnvironmentGenerator.cs:224-243). */
    method CountBlastWalls(p: Vec2, ghost g: seq<seq<TileType>>) returns (hits: nat)
      requires TilesAre(g)
      ensures hits == CrossWalls(g, p) && hits <= 5
    {
      hits := 0;
      if GetTileType(p) == Breakable { hits := hits + 1; }
      if GetTileType(Neighbor(p, Up)) == Breakable { hits := hits + 1; }
      if GetTileType(Neighbor(p, Down)) == Breakable { hits := hits + 1; }
      if GetTileType(Neighbor(p, Right)) == Breakable { hits := hits + 1; }
      if GetTileType(Neighbor(p, Left)) == Breakable { hits := hits + 1; }
    }

    /** Marks `p` and its in-bounds axis neighbours as explosions (EnvironmentGenerator.cs:247-255). */
    method MarkBlast(p: Vec2)
      requires Valid() && TileInBounds(p, width, height)
      modifies tileGrid
      ensures forall i, j {:trigger tileGrid[i, j]} :: 0 <= i < width && 0 <= j < height ==>
        tileGrid[i, j] == if InCross(Vec2(i, j), p) then Explosion else old(tileGrid[i, j])
    {
      tileGrid[p.x, p.y] := Explosion;
      if TileInBounds(Neighbor(p, Up), width, height) { tileGrid[p.x, p.y + 1] := Explosion; }
      if TileInBounds(Neighbor(p, Down), width, height) { tileGrid[p.x, p.y - 1] := Explosion; }
      if TileInBounds(Neighbor(p, Right), width, height) { tileGrid[p.x + 1, p.y] := Explosion; }
      if TileInBounds(Neighbor(p, Left), width, height) { tileGrid[p.x - 1, p.y] := Explosion; }
    }

    /** One cell of the bomb scan (EnvironmentGenerator.cs:212-255), carrying the
        running total `broken`; it does to the arrays what VisitCellV does to `s`. */
    method VisitCell(p: Vec2, broken: nat, ghost s: ScanState) returns (total: nat, ghost s': ScanState)
      requires Holds(s) && s.broken == broken && TileInBounds(p, width, height)
      modifies this`breakableWallCount, tileGrid, bombTimerGrid
      ensures s' == VisitCellV(s, p) && Holds(s') && total == s'.broken
    {
      s' := VisitCellV(s, p);
      total := broken;
      if bombTimerGrid[p.x, p.y] == 0 {
        return;
      }
      bombTimerGrid[p.x, p.y] := bombTimerGrid[p.x, p.y] - 1;
      if bombTimerGrid[p.x, p.y] != 0 {
        return;
      }
      var hits := CountBlastWalls(p, s.tiles);
      total := total + hits;
      breakableWallCount := breakableWallCount - total;
      MarkBlast(p);
    }

    /** Scans column `x`: visits each of its cells from the bottom up. The
        ghost parameters carry the scan invariant: the cleared board `g0`, the
        timers `t0` and counter `c0` the scan started from, and the number,
        first and last of the bombs detonated so far. */
    method ScanColumn(x: nat, broken: nat, ghost g0: seq<seq<TileType>>, ghost t0: seq<seq<nat>>, ghost c0: int,
                      ghost s: ScanState, ghost f: Detonations)
      returns (total: nat, ghost s': ScanState, ghost f': Detonations)
      requires x < width && Holds(s) && broken == s.broken
      requires Scanned(s, g0, t0, width, height, c0, x, 0, f)
      modifies this`breakableWallCount, tileGrid, bombTimerGrid
      ensures Holds(s') && total == s'.broken
      ensures Scanned(s', g0, t0, width, height, c0, x + 1, 0, f')
    {
      total, s', f' := broken, s, f;
      var y := 0;
      while y < height
        invariant 0 <= y <= height
        invariant Holds(s') && total == s'.broken
        invariant Scanned(s', g0, t0, width, height, c0, x, y, f')
      {
        ghost var before := s';
        total, s' := VisitCell(Vec2(x, y), total, s');
        f' := VisitPreserves(before, g0, t0, width, height, c0, x, y, f');
        y := y + 1;
      }
      ColumnDone(s', g0, t0, width, height, c0, x, f');
    }

    /** Visits every cell column by column, starting from the cleared board
        `g0`, the timers `t0` and the counter `c0` held in `s`. */
    method ScanBoard(ghost g0: seq<seq<TileType>>, ghost t0: seq<seq<nat>>, ghost c0: int, ghost s: ScanState)
      returns (brokenWalls: nat, ghost s': ScanState, ghost f': Detonations)
      requires Holds(s) && s.broken == 0
      requires Scanned(s, g0, t0, width, height, c0, 0, 0, Detonations(0, Zero, Zero))
      modifies this`breakableWallCount, tileGrid, bombTimerGrid
      ensures Holds(s') && brokenWalls == s'.broken
      ensures Scanned(s', g0, t0, width, height, c0, width, 0, f')
    {
      s', f' := s, Detonations(0, Zero, Zero);
      brokenWalls := 0;
      var x := 0;
      while x < width
        invariant 0 <= x <= width
        invariant Holds(s') && brokenWalls == s'.broken
        invariant Scanned(s', g0, t0, width, height, c0, x, 0, f')
      {
        brokenWalls, s', f' := ScanColumn(x, brokenWalls, g0, t0, c0, s', f');
        x := x + 1;
      }
    }

    /** The arrays read back as the grids of the scan state they hold. */
    lemma HoldsSnapshot(s: ScanState)
      requires Holds(s)
      ensures Tiles() == s.tiles && Timers() == s.timers
    {
      GridExt(Tiles(), s.tiles, width, height);
      GridExt(Timers(), s.timers, width, height);
    }

    /** Once the scan has passed every cell, the arrays hold the stepped board
        and the ticked timers. */
    lemma ScanFinished(g: seq<seq<TileType>>, t0: seq<seq<nat>>, c0: int, s: ScanState, f: Detonations)
      requires Holds(s) && IsGrid(g, width, height)
      requires Scanned(s, Cleared(g), t0, width, height, c0, width, 0, f)
      ensures Tiles() == Stepped(g, t0) && Timers() == Ticked(t0)
      ensures s.broken == WallsBroken(g, t0)
      ensures breakableWallCount <= c0 - s.broken
      ensures AtMostOneDetonation(t0) ==> breakableWallCount == c0 - s.broken
    {
      HoldsSnapshot(s);
      ScanComplete(g, t0, width, height, c0, s, f);
    }

    /** Clears old explosions, ticks every armed bomb and detonates those that
        reach zero; returns the number of walls broken. */
    method StepBombs() returns (brokenWalls: nat)
      requires Valid()
      modifies this`breakableWallCount, tileGrid, bombTimerGrid
      ensures Tiles() == Stepped(old(Tiles()), old(Timers()))
      ensures Timers() == Ticked(old(Timers()))
      ensures brokenWalls == WallsBroken(old(Tiles()), old(Timers()))
      ensures breakableWallCount <= old(breakableWallCount) - brokenWalls
      ensures AtMostOneDetonation(old(Timers())) ==> breakableWallCount == old(breakableWallCount) - brokenWalls
    {
      ghost var g, t0 := Tiles(), Timers();
      ClearExplosions();
      ghost var c0 := breakableWallCount;
      ghost var s := ScanState(Cleared(g), t0, 0, c0);
      ClearedProperties(g);
      ScanStart(s, Cleared(g), t0, width, height, c0);
      assert Holds(s);
      ghost var f;
      brokenWalls, s, f := ScanBoard(Cleared(g), t0, c0, s);
      ScanFinished(g, t0, c0, s, f);
    }
  }
}
