/** The agent of the Bomberman arena: its actions, the state it observes (the
    key of the Q-table), which actions are legal, the danger map of bomb
    timers, the shaped reward, and the agent object that moves and arms bombs
    on the live board. */
module Agent {
  import opened Environment

  // ---------------------------------------------------------------------
  // Actions (AgentBehavior.cs:10-20)
  // ---------------------------------------------------------------------

  /** Everything the agent can do in one turn. */
  datatype AgentAction =
    | None
    | MoveUp | MoveDown | MoveLeft | MoveRight
    | BombUp | BombDown | BombLeft | BombRight

  /** The number of actions, and so the length of every Q-value vector. */
  const ActionCount: nat := 9

  /** The action with ordinal `i`, in declaration order. */
  function ActionOf(i: nat): AgentAction
    requires i < ActionCount
  {
    [None, MoveUp, MoveDown, MoveLeft, MoveRight, BombUp, BombDown, BombLeft, BombRight][i]
  }

  /** The enum value of an action (`(int)action`): its position in declaration order. */
  function Ordinal(a: AgentAction): (i: nat)
    ensures i < ActionCount && ActionOf(i) == a
  {
    match a
    case None => 0
    case MoveUp => 1
    case MoveDown => 2
    case MoveLeft => 3
    case MoveRight => 4
    case BombUp => 5
    case BombDown => 6
    case BombLeft => 7
    case BombRight => 8
  }

  /** Ordinals and actions are in one-to-one correspondence. */
  lemma OrdinalBijection(i: nat)
    requires i < ActionCount
    ensures Ordinal(ActionOf(i)) == i
  {
  }

  /** The move in direction `d`. */
  function Move(d: Direction): AgentAction {
    match d
    case Up => MoveUp
    case Down => MoveDown
    case Left => MoveLeft
    case Right => MoveRight
  }

  /** The bomb placed in direction `d`. */
  function Bomb(d: Direction): AgentAction {
    match d
    case Up => BombUp
    case Down => BombDown
    case Left => BombLeft
    case Right => BombRight
  }

  /** Whether the action places a bomb (`action.ToString().Contains("Bomb")`). */
  predicate IsBomb(a: AgentAction) {
    a.BombUp? || a.BombDown? || a.BombLeft? || a.BombRight?
  }

  /** The direction of a move or a bomb. */
  function DirectionOf(a: AgentAction): Direction
    requires a != None
  {
    match a
    case MoveUp => Up
    case BombUp => Up
    case MoveDown => Down
    case BombDown => Down
    case MoveLeft => Left
    case BombLeft => Left
    case MoveRight => Right
    case BombRight => Right
  }

  /** Every action other than None is the move or the bomb of its direction. */
  lemma ActionShape(a: AgentAction)
    ensures a == None || a == Move(DirectionOf(a)) || a == Bomb(DirectionOf(a))
    ensures a != None ==> (IsBomb(a) <==> a == Bomb(DirectionOf(a)))
  {
  }

  /** The cell the action aims at from `p`: `p + delta`, where None has a zero delta. */
  function Target(p: Vec2, a: AgentAction): Vec2 {
    if a == None then p else Neighbor(p, DirectionOf(a))
  }

  // ---------------------------------------------------------------------
  // The observed state (AgentBehavior.cs:22-83)
  // ---------------------------------------------------------------------

  /** What the agent observes: its position, a copy of the tile grid and the
      danger map. Two states are the same key exactly when they are equal values. */
  datatype AgentState = AgentState(agentPosition: Vec2, tileGrid: seq<seq<TileType>>, explosionTimers: seq<seq<nat>>)

  /** `AgentState.Equals` as the source writes it: positions first, then every
      tile and every danger value of the current `w` by `h` board. */
  predicate StateEquals(a: AgentState, b: AgentState, w: nat, h: nat)
    requires IsGrid(a.tileGrid, w, h) && IsGrid(b.tileGrid, w, h)
    requires IsGrid(a.explosionTimers, w, h) && IsGrid(b.explosionTimers, w, h)
  {
    a.agentPosition == b.agentPosition
    && (forall x, y :: 0 <= x < w && 0 <= y < h ==>
          a.tileGrid[x][y] == b.tileGrid[x][y] && a.explosionTimers[x][y] == b.explosionTimers[x][y])
  }

  /** For states of the board's size, the source's Equals is value equality,
      so it is reflexive and symmetric and equal states hash alike. */
  lemma StateEqualsIsEquality(a: AgentState, b: AgentState, w: nat, h: nat)
    requires IsGrid(a.tileGrid, w, h) && IsGrid(b.tileGrid, w, h)
    requires IsGrid(a.explosionTimers, w, h) && IsGrid(b.explosionTimers, w, h)
    ensures StateEquals(a, b, w, h) <==> a == b
    ensures StateEquals(a, a, w, h)
    ensures StateEquals(a, b, w, h) <==> StateEquals(b, a, w, h)
  {
    if StateEquals(a, b, w, h) {
      GridExt(a.tileGrid, b.tileGrid, w, h);
      GridExt(a.explosionTimers, b.explosionTimers, w, h);
    }
  }

  // ---------------------------------------------------------------------
  // Legal actions (AgentBehavior.cs:128-167)
  // ---------------------------------------------------------------------

  /** Whether the agent at `p` may step in direction `d`: the tile there is walkable. */
  predicate CanMoveToDeltaTile(tiles: seq<seq<TileType>>, p: Vec2, d: Direction) {
    TileAt(tiles, Neighbor(p, d)) == Walkable
  }

  /** The actions one direction contributes: the move if the tile is walkable,
      then the bomb too if the cooldown is over. */
  function DirectionActions(tiles: seq<seq<TileType>>, p: Vec2, cooldown: int, d: Direction): seq<AgentAction> {
    if CanMoveToDeltaTile(tiles, p, d) then [Move(d)] + (if cooldown == 0 then [Bomb(d)] else []) else []
  }

  /** The legal-action list in the order the source builds it: None, then up,
      down, right and left. None is always legal, there are at most nine
      actions, and no bomb is legal while the cooldown runs. */
  function LegalActions(tiles: seq<seq<TileType>>, p: Vec2, cooldown: int): (l: seq<AgentAction>)
    ensures 1 <= |l| <= ActionCount && l[0] == None
    ensures cooldown != 0 ==> forall k :: 0 <= k < |l| ==> !IsBomb(l[k])
  {
    [None] + DirectionActions(tiles, p, cooldown, Up) + DirectionActions(tiles, p, cooldown, Down)
    + DirectionActions(tiles, p, cooldown, Right) + DirectionActions(tiles, p, cooldown, Left)
  }

  /** No entry of `s` appears twice. */
  predicate Distinct<T(==)>(s: seq<T>) {
    forall i, j :: 0 <= i < j < |s| ==> s[i] != s[j]
  }

  /** Two duplicate-free lists with no common entry concatenate to a duplicate-free list. */
  lemma DistinctAppend<T>(a: seq<T>, b: seq<T>)
    requires Distinct(a) && Distinct(b)
    requires forall x :: x in a ==> x !in b
    ensures Distinct(a + b)
  {
    forall i, j | 0 <= i < j < |a + b| ensures (a + b)[i] != (a + b)[j] {
      if i < |a| && |a| <= j {
        assert (a + b)[i] in a && (a + b)[j] == b[j - |a|];
      }
    }
  }

  /** The actions a direction contributes are distinct and all point that way. */
  lemma DirectionActionsShape(tiles: seq<seq<TileType>>, p: Vec2, cooldown: int, d: Direction)
    ensures Distinct(DirectionActions(tiles, p, cooldown, d))
    ensures forall x :: x in DirectionActions(tiles, p, cooldown, d) ==> x != None && DirectionOf(x) == d
  {
  }

  /** The legal-action list holds the move in a direction exactly when the
      tile there is walkable, and the bomb exactly when the move is legal and
      the cooldown is over. */
  lemma LegalActionsSpec(tiles: seq<seq<TileType>>, p: Vec2, cooldown: int)
    ensures forall d :: Move(d) in LegalActions(tiles, p, cooldown) <==> CanMoveToDeltaTile(tiles, p, d)
    ensures forall d :: Bomb(d) in LegalActions(tiles, p, cooldown) <==> CanMoveToDeltaTile(tiles, p, d) && cooldown == 0
  {
    forall d
      ensures Move(d) in LegalActions(tiles, p, cooldown) <==> CanMoveToDeltaTile(tiles, p, d)
      ensures Bomb(d) in LegalActions(tiles, p, cooldown) <==> CanMoveToDeltaTile(tiles, p, d) && cooldown == 0
    {
      DirectionLegal(tiles, p, cooldown, d);
    }
  }

  /** The move and the bomb in direction `d` are legal exactly under the source's conditions. */
  lemma DirectionLegal(tiles: seq<seq<TileType>>, p: Vec2, cooldown: int, d: Direction)
    ensures Move(d) in LegalActions(tiles, p, cooldown) <==> CanMoveToDeltaTile(tiles, p, d)
    ensures Bomb(d) in LegalActions(tiles, p, cooldown) <==> CanMoveToDeltaTile(tiles, p, d) && cooldown == 0
  {
    LegalMembership(tiles, p, cooldown, Move(d));
    LegalMembership(tiles, p, cooldown, Bomb(d));
  }

  /** No action appears twice in the legal-action list. */
  lemma LegalActionsDistinct(tiles: seq<seq<TileType>>, p: Vec2, cooldown: int)
    ensures Distinct(LegalActions(tiles, p, cooldown))
  {
    var up, down := DirectionActions(tiles, p, cooldown, Up), DirectionActions(tiles, p, cooldown, Down);
    var right, left := DirectionActions(tiles, p, cooldown, Right), DirectionActions(tiles, p, cooldown, Left);
    DirectionActionsShape(tiles, p, cooldown, Up);
    DirectionActionsShape(tiles, p, cooldown, Down);
    DirectionActionsShape(tiles, p, cooldown, Right);
    DirectionActionsShape(tiles, p, cooldown, Left);
    DistinctAppend([None], up);
    DistinctAppend([None] + up, down);
    DistinctAppend([None] + up + down, right);
    DistinctAppend([None] + up + down + right, left);
  }

  /** An action is legal when it is None or its own direction contributes it. */
  lemma LegalMembership(tiles: seq<seq<TileType>>, p: Vec2, cooldown: int, x: AgentAction)
    ensures x in LegalActions(tiles, p, cooldown) <==>
      x == None || x in DirectionActions(tiles, p, cooldown, DirectionOf(x))
  {
    DirectionActionsShape(tiles, p, cooldown, Up);
    DirectionActionsShape(tiles, p, cooldown, Down);
    DirectionActionsShape(tiles, p, cooldown, Right);
    DirectionActionsShape(tiles, p, cooldown, Left);
  }

  /** A legal action never leaves the board: a move or bomb aims at a walkable
      tile, and anything off the board reads as an unbreakable wall. */
  lemma LegalTargetsInBounds(tiles: seq<seq<TileType>>, w: nat, h: nat, p: Vec2, cooldown: int, a: AgentAction)
    requires IsGrid(tiles, w, h) && TileInBounds(p, w, h)
    requires a in LegalActions(tiles, p, cooldown)
    ensures TileInBounds(Target(p, a), w, h)
    ensures a != None ==> TileAt(tiles, Target(p, a)) == Walkable
  {
    LegalActionsSpec(tiles, p, cooldown);
    ActionShape(a);
    if a != None {
      var d := DirectionOf(a);
      assert CanMoveToDeltaTile(tiles, p, d);
    }
  }

  // ---------------------------------------------------------------------
  // The danger map (AgentBehavior.cs:169-204)
  // ---------------------------------------------------------------------

  /** One min-update of a danger value by a bomb timer: an empty cell (0)
      counts as 100, and a zero timer (no bomb) changes nothing. */
  function DangerUpdate(d: nat, t: nat): nat {
    if t == 0 then d else Min(t, if d == 0 then 100 else d)
  }

  /** The danger value built from a list of covering timers, updated in order. */
  function FoldDanger(ts: seq<nat>): nat {
    if ts == [] then 0 else DangerUpdate(FoldDanger(ts[..|ts| - 1]), ts[|ts| - 1])
  }

  /** A folded danger value is 0 exactly when no timer is armed; otherwise it is
      at most 100, at most every armed timer, and either 100 or one of them. */
  lemma {:induction false} FoldDangerMeaning(ts: seq<nat>)
    ensures FoldDanger(ts) == 0 <==> forall k :: 0 <= k < |ts| ==> ts[k] == 0
    ensures FoldDanger(ts) <= 100
    ensures forall k :: 0 <= k < |ts| && ts[k] != 0 ==> FoldDanger(ts) <= ts[k]
    ensures FoldDanger(ts) == 0 || FoldDanger(ts) == 100 || exists k :: 0 <= k < |ts| && FoldDanger(ts) == ts[k]
  {
    if ts != [] {
      var n := |ts| - 1;
      FoldDangerMeaning(ts[..n]);
      assert forall k :: 0 <= k < n ==> ts[..n][k] == ts[k];
      if FoldDanger(ts[..n]) != 0 && FoldDanger(ts[..n]) != 100 && FoldDanger(ts) == FoldDanger(ts[..n]) {
        var k :| 0 <= k < n && FoldDanger(ts[..n]) == ts[..n][k];
        assert FoldDanger(ts) == ts[k];
      }
    }
  }

  /** The bombs whose blast can reach `c`, in the order the source's
      column-by-column scan meets them. */
  function Coverers(c: Vec2): seq<Vec2> {
    [Neighbor(c, Left), Neighbor(c, Down), c, Neighbor(c, Up), Neighbor(c, Right)]
  }

  /** The coverers of `c` are exactly the cells whose cross holds `c`. */
  lemma CoverersAreCross(c: Vec2, b: Vec2)
    ensures b in Coverers(c) <==> InCross(c, b)
  {
  }

  /** The danger of cell `c` of a board with tiles `tiles` and bomb timers `ts`:
      0 on unbreakable tiles, otherwise the min-update of the covering timers. */
  function Danger(tiles: seq<seq<TileType>>, ts: seq<seq<nat>>, c: Vec2): nat {
    if TileAt(tiles, c) == Unbreakable then 0
    else
      var cs := Coverers(c);
      FoldDanger([TimerAt(ts, cs[0]), TimerAt(ts, cs[1]), TimerAt(ts, cs[2]), TimerAt(ts, cs[3]), TimerAt(ts, cs[4])])
  }

  /** The danger map of the whole board. */
  function DangerMap(tiles: seq<seq<TileType>>, ts: seq<seq<nat>>): (m: seq<seq<nat>>)
    ensures |m| == |tiles| && forall i {:trigger m[i]} :: 0 <= i < |tiles| ==> |m[i]| == |tiles[i]|
    ensures forall i, j {:trigger m[i][j]} :: 0 <= i < |tiles| && 0 <= j < |tiles[i]| ==> m[i][j] == Danger(tiles, ts, Vec2(i, j))
  {
    seq(|tiles|, i requires 0 <= i < |tiles| => DangerColumn(tiles, ts, i))
  }

  /** Column `i` of the danger map. */
  function DangerColumn(tiles: seq<seq<TileType>>, ts: seq<seq<nat>>, i: nat): (c: seq<nat>)
    requires i < |tiles|
    ensures |c| == |tiles[i]| && forall j {:trigger c[j]} :: 0 <= j < |tiles[i]| ==> c[j] == Danger(tiles, ts, Vec2(i, j))
  {
    seq(|tiles[i]|, j requires 0 <= j < |tiles[i]| => Danger(tiles, ts, Vec2(i, j)))
  }

  /** What the danger value of a cell means: 0 on an unbreakable tile and where
      no armed bomb covers the cell; otherwise the smallest covering timer,
      capped at 100. A fresh bomb's own cell is unbreakable, so it reads 0. */
  lemma DangerMeaning(tiles: seq<seq<TileType>>, ts: seq<seq<nat>>, c: Vec2)
    ensures TileAt(tiles, c) == Unbreakable ==> Danger(tiles, ts, c) == 0
    ensures TileAt(tiles, c) != Unbreakable ==>
      (Danger(tiles, ts, c) == 0 <==> forall b :: InCross(c, b) ==> TimerAt(ts, b) == 0)
    ensures Danger(tiles, ts, c) <= 100
    ensures forall b :: InCross(c, b) && TimerAt(ts, b) != 0 && TileAt(tiles, c) != Unbreakable ==>
      Danger(tiles, ts, c) <= TimerAt(ts, b)
    ensures Danger(tiles, ts, c) == 0 || Danger(tiles, ts, c) == 100
         || exists b :: InCross(c, b) && Danger(tiles, ts, c) == TimerAt(ts, b)
  {
    var cs := Coverers(c);
    var vs := [TimerAt(ts, cs[0]), TimerAt(ts, cs[1]), TimerAt(ts, cs[2]), TimerAt(ts, cs[3]), TimerAt(ts, cs[4])];
    FoldDangerMeaning(vs);
    forall b | InCross(c, b) ensures TimerAt(ts, b) in vs {
      CoverersAreCross(c, b);
    }
    if TileAt(tiles, c) != Unbreakable && Danger(tiles, ts, c) != 0 && Danger(tiles, ts, c) != 100 {
      var k :| 0 <= k < 5 && Danger(tiles, ts, c) == vs[k];
      CoverersAreCross(c, cs[k]);
    }
  }

  /** One covering timer as the scan sees it when it reaches (x, y): the bombs
      it has not visited yet still count as absent. */
  function SeenTimer(ts: seq<seq<nat>>, b: Vec2, x: int, y: int): nat {
    if Before(b, x, y) then TimerAt(ts, b) else 0
  }

  /** The danger of `c` after the source's scan has visited every cell before (x, y). */
  function PartialDanger(tiles: seq<seq<TileType>>, ts: seq<seq<nat>>, c: Vec2, x: int, y: int): nat {
    if TileAt(tiles, c) == Unbreakable then 0
    else
      var cs := Coverers(c);
      FoldDanger([SeenTimer(ts, cs[0], x, y), SeenTimer(ts, cs[1], x, y), SeenTimer(ts, cs[2], x, y),
                  SeenTimer(ts, cs[3], x, y), SeenTimer(ts, cs[4], x, y)])
  }

  /** Raising a zero entry of a timer list whose later entries are all zero
      is one more update of the folded value. */
  lemma {:induction false} FoldDangerRaise(s: seq<nat>, k: nat, t: nat)
    requires k < |s| && s[k] == 0
    requires forall j :: k < j < |s| ==> s[j] == 0
    ensures FoldDanger(s[k := t]) == DangerUpdate(FoldDanger(s), t)
  {
    var n := |s| - 1;
    if k == n {
      assert s[k := t][..n] == s[..n];
    } else {
      assert s[k := t][..n] == s[..n][k := t];
      FoldDangerRaise(s[..n], k, t);
    }
  }

  /** Visiting cell (x, y) adds that bomb's timer to every non-wall cell of its cross
      and leaves every other cell's danger as it was. */
  lemma PartialDangerStep(tiles: seq<seq<TileType>>, ts: seq<seq<nat>>, c: Vec2, x: int, y: int)
    ensures PartialDanger(tiles, ts, c, x, y + 1) ==
      if InCross(c, Vec2(x, y)) && TileAt(tiles, c) != Unbreakable
      then DangerUpdate(PartialDanger(tiles, ts, c, x, y), TimerAt(ts, Vec2(x, y)))
      else PartialDanger(tiles, ts, c, x, y)
  {
    var b := Vec2(x, y);
    var cs := Coverers(c);
    var s := [SeenTimer(ts, cs[0], x, y), SeenTimer(ts, cs[1], x, y), SeenTimer(ts, cs[2], x, y),
              SeenTimer(ts, cs[3], x, y), SeenTimer(ts, cs[4], x, y)];
    var s' := [SeenTimer(ts, cs[0], x, y + 1), SeenTimer(ts, cs[1], x, y + 1), SeenTimer(ts, cs[2], x, y + 1),
               SeenTimer(ts, cs[3], x, y + 1), SeenTimer(ts, cs[4], x, y + 1)];
    if TileAt(tiles, c) != Unbreakable {
      if InCross(c, b) {
        var k :| 0 <= k < 5 && cs[k] == b;
        assert s' == s[k := TimerAt(ts, b)];
        FoldDangerRaise(s, k, TimerAt(ts, b));
      } else {
        assert s' == s;
      }
    }
  }

  /** Finishing a column of the board is the same as starting the next one. */
  lemma PartialDangerColumn(tiles: seq<seq<TileType>>, ts: seq<seq<nat>>, w: nat, h: nat, c: Vec2, x: nat)
    requires IsGrid(ts, w, h) && x < w
    ensures PartialDanger(tiles, ts, c, x, h) == PartialDanger(tiles, ts, c, x + 1, 0)
  {
    var cs := Coverers(c);
    forall k | 0 <= k < 5 ensures SeenTimer(ts, cs[k], x, h) == SeenTimer(ts, cs[k], x + 1, 0) {
    }
  }

  /** Before the scan every cell's danger is 0; after it, the danger map. */
  lemma PartialDangerEnds(tiles: seq<seq<TileType>>, ts: seq<seq<nat>>, w: nat, h: nat, c: Vec2)
    requires IsGrid(ts, w, h)
    ensures PartialDanger(tiles, ts, c, 0, 0) == 0
    ensures PartialDanger(tiles, ts, c, w, 0) == Danger(tiles, ts, c)
  {
    var cs := Coverers(c);
    var s := [SeenTimer(ts, cs[0], 0, 0), SeenTimer(ts, cs[1], 0, 0), SeenTimer(ts, cs[2], 0, 0),
              SeenTimer(ts, cs[3], 0, 0), SeenTimer(ts, cs[4], 0, 0)];
    FoldDangerMeaning(s);
    var e := [SeenTimer(ts, cs[0], w, 0), SeenTimer(ts, cs[1], w, 0), SeenTimer(ts, cs[2], w, 0),
              SeenTimer(ts, cs[3], w, 0), SeenTimer(ts, cs[4], w, 0)];
    assert e == [TimerAt(ts, cs[0]), TimerAt(ts, cs[1]), TimerAt(ts, cs[2]), TimerAt(ts, cs[3]), TimerAt(ts, cs[4])];
  }

  // ---------------------------------------------------------------------
  // The reward (AgentBehavior.cs:205-253, reward constants QLearning.cs:94-99)
  // ---------------------------------------------------------------------

  /** The reward constants of the trainer. */
  datatype Rewards = Rewards(alive: real, effectiveBomb: real, ineffectiveBomb: real, breakWall: real, death: real)

  /** The trainer's default reward constants. */
  const DefaultRewards: Rewards := Rewards(-1.0, 5.0, -5.0, 20.0, -100.0)

  /** The distance the wall search starts from when no breakable wall exists (`short.MaxValue`). */
  const NoWall: int := 32767

  /** The Manhattan distance between two cells. */
  function Distance(a: Vec2, b: Vec2): nat {
    Abs(a.x - b.x) + Abs(a.y - b.y)
  }

  /** The shortest distance from `p` to a breakable wall among the first
      cells of column `x`, or NoWall when there is none. */
  function ColumnNearest(col: seq<TileType>, x: int, p: Vec2): int {
    if col == [] then NoWall
    else
      var y := |col| - 1;
      Min(ColumnNearest(col[..y], x, p), if col[y] == Breakable then Distance(p, Vec2(x, y)) else NoWall)
  }

  /** The shortest distance from `p` to a breakable wall of `g`, or NoWall when there is none. */
  function NearestWall(g: seq<seq<TileType>>, p: Vec2): int {
    if g == [] then NoWall
    else
      var x := |g| - 1;
      Min(NearestWall(g[..x], p), ColumnNearest(g[x], x, p))
  }

  /** The column search is at most NoWall and at most the distance to every
      wall in the column, and it is NoWall or the distance to one of them. */
  lemma {:induction false} ColumnNearestSpec(col: seq<TileType>, x: int, p: Vec2)
    ensures ColumnNearest(col, x, p) <= NoWall
    ensures forall y :: 0 <= y < |col| && col[y] == Breakable ==> ColumnNearest(col, x, p) <= Distance(p, Vec2(x, y))
    ensures ColumnNearest(col, x, p) == NoWall
         || exists y :: 0 <= y < |col| && col[y] == Breakable && ColumnNearest(col, x, p) == Distance(p, Vec2(x, y))
  {
    if col != [] {
      var n := |col| - 1;
      ColumnNearestSpec(col[..n], x, p);
      assert forall y :: 0 <= y < n ==> col[..n][y] == col[y];
    }
  }

  /** The wall search is at most NoWall and at most the distance to every
      breakable wall of the board, and it is NoWall or the distance to one of them. */
  lemma {:induction false} NearestWallSpec(g: seq<seq<TileType>>, p: Vec2)
    ensures NearestWall(g, p) <= NoWall
    ensures forall x, y :: 0 <= x < |g| && 0 <= y < |g[x]| && g[x][y] == Breakable ==>
      NearestWall(g, p) <= Distance(p, Vec2(x, y))
    ensures NearestWall(g, p) == NoWall
         || exists x, y :: 0 <= x < |g| && 0 <= y < |g[x]| && g[x][y] == Breakable && NearestWall(g, p) == Distance(p, Vec2(x, y))
  {
    if g != [] {
      var n := |g| - 1;
      NearestWallSpec(g[..n], p);
      ColumnNearestSpec(g[n], n, p);
      assert forall x :: 0 <= x < n ==> g[..n][x] == g[x];
      if NearestWall(g, p) != NoWall {
        if NearestWall(g, p) == ColumnNearest(g[n], n, p) {
          var y :| 0 <= y < |g[n]| && g[n][y] == Breakable && ColumnNearest(g[n], n, p) == Distance(p, Vec2(n, y));
        } else {
          var x, y :| 0 <= x < n && 0 <= y < |g[..n][x]| && g[..n][x][y] == Breakable
            && NearestWall(g[..n], p) == Distance(p, Vec2(x, y));
          assert g[x][y] == Breakable;
        }
      }
    }
  }

  /** Whether a breakable wall lies in the blast cross of a bomb at `p`. */
  predicate NextToWall(g: seq<seq<TileType>>, p: Vec2) {
    TileAt(g, p) == Breakable || TileAt(g, Neighbor(p, Up)) == Breakable || TileAt(g, Neighbor(p, Down)) == Breakable
    || TileAt(g, Neighbor(p, Right)) == Breakable || TileAt(g, Neighbor(p, Left)) == Breakable
  }

  /** A bomb is next to a wall exactly when some cell of its cross is a breakable wall,
      that is, when its blast would break at least one wall. */
  lemma NextToWallSpec(g: seq<seq<TileType>>, p: Vec2)
    ensures NextToWall(g, p) <==> exists c :: InCross(c, p) && TileAt(g, c) == Breakable
    ensures NextToWall(g, p) <==> CrossWalls(g, p) > 0
  {
    if exists c :: InCross(c, p) && TileAt(g, c) == Breakable {
      var c :| InCross(c, p) && TileAt(g, c) == Breakable;
      assert c == p || c == Neighbor(p, Up) || c == Neighbor(p, Down) || c == Neighbor(p, Right) || c == Neighbor(p, Left);
    }
  }

  /** The shaping term for a move: +5 for getting closer to the nearest wall,
      -5 for getting farther, 0 otherwise. */
  function Shaping(oldSteps: int, newSteps: int): real {
    if oldSteps > newSteps then 5.0 else if oldSteps < newSteps then -5.0 else 0.0
  }

  /** Whether the agent of `state` stood where a bomb was about to go off and is
      still there in `next`: the condition of the source's +10 bonus. (The
      source indexes the danger map directly; TakeAction's precondition keeps
      the position on the board, where TimerAt reads the same cell.) */
  predicate StayedInDanger(state: AgentState, next: AgentState) {
    TimerAt(state.explosionTimers, state.agentPosition) == 1 && state.agentPosition == next.agentPosition
  }

  /** The instantaneous reward of taking `action` in `state` and reaching `next`,
      with `live` the board after the action and `broken` the walls it broke.
      Dying in an explosion overrides everything else; standing still earns only
      the alive reward, even when walls broke on that turn; a bomb earns the
      effective-bomb reward exactly when its blast cross holds a breakable wall;
      a move that reaches its target never earns the +10 bonus, since the
      agent did not stay where it was. */
  function ComputeReward(r: Rewards, live: seq<seq<TileType>>, state: AgentState, action: AgentAction,
                         next: AgentState, broken: nat): (v: real)
    ensures TileAt(live, next.agentPosition) == Explosion ==> v == r.death
    ensures TileAt(live, next.agentPosition) != Explosion && action == None ==> v == r.alive
    ensures TileAt(live, next.agentPosition) != Explosion && IsBomb(action) ==>
      v == r.alive + broken as real * r.breakWall
        + (if CrossWalls(live, Target(next.agentPosition, action)) > 0 then r.effectiveBomb else r.ineffectiveBomb)
    ensures (TileAt(live, next.agentPosition) != Explosion && action != None && !IsBomb(action)
             && next.agentPosition == Target(state.agentPosition, action)) ==>
      v == r.alive + broken as real * r.breakWall
        + Shaping(NearestWall(state.tileGrid, state.agentPosition), NearestWall(next.tileGrid, next.agentPosition))
  {
    if TileAt(live, next.agentPosition) == Explosion then r.death
    else
      var base := r.alive + broken as real * r.breakWall;
      if IsBomb(action) then
        var q := Target(next.agentPosition, action);
        NextToWallSpec(live, q);
        base + (if NextToWall(live, q) then r.effectiveBomb else r.ineffectiveBomb)
      else if action != None then
        base + Shaping(NearestWall(state.tileGrid, state.agentPosition), NearestWall(next.tileGrid, next.agentPosition))
        + (if StayedInDanger(state, next) then 10.0 else 0.0)
      else r.alive
  }

  /** With the default constants the reward equals the death reward exactly when
      the agent ends the turn on an explosion, so the trainer's end-of-episode
      test on the reward detects deaths and nothing else. */
  lemma DefaultDeathRewardExact(live: seq<seq<TileType>>, state: AgentState, action: AgentAction,
                                next: AgentState, broken: nat)
    ensures ComputeReward(DefaultRewards, live, state, action, next, broken) == DefaultRewards.death
        <==> TileAt(live, next.agentPosition) == Explosion
    ensures TileAt(live, next.agentPosition) != Explosion ==>
      ComputeReward(DefaultRewards, live, state, action, next, broken) >= -6.0
  {
    assert broken as real * DefaultRewards.breakWall >= 0.0;
  }

  // ---------------------------------------------------------------------
  // One turn on values (AgentBehavior.cs:258-341)
  // ---------------------------------------------------------------------

  /** The state the agent observes on a board: its position, the tiles and the danger map. */
  function Observe(p: Vec2, tiles: seq<seq<TileType>>, ts: seq<seq<nat>>): (s: AgentState)
    ensures s.agentPosition == p && s.tileGrid == tiles
    ensures |s.explosionTimers| == |tiles| && forall i {:trigger s.explosionTimers[i]} :: 0 <= i < |tiles| ==> |s.explosionTimers[i]| == |tiles[i]|
  {
    AgentState(p, tiles, DangerMap(tiles, ts))
  }

  /** The tiles after a turn from tiles `g` and timers `t`: every bomb steps,
      then a bomb action turns its target into the new bomb's unbreakable tile. */
  function TurnTiles(g: seq<seq<TileType>>, t: seq<seq<nat>>, p: Vec2, a: AgentAction): seq<seq<TileType>> {
    if IsBomb(a) then SetCell(Stepped(g, t), Target(p, a), Unbreakable) else Stepped(g, t)
  }

  /** The timers after a turn: every bomb ticks, then a bomb action arms the target with the full fuse. */
  function TurnTimers(t: seq<seq<nat>>, p: Vec2, a: AgentAction, fuse: nat): seq<seq<nat>> {
    if IsBomb(a) then SetCell(Ticked(t), Target(p, a), fuse) else Ticked(t)
  }

  /** The agent's position after a turn: a bomb action keeps it, anything else moves to the target. */
  function TurnPosition(p: Vec2, a: AgentAction): Vec2 {
    if IsBomb(a) then p else Target(p, a)
  }

  /** The cooldown after a turn: a bomb action restarts it, anything else ticks it down. */
  function TurnCooldown(cooldown: nat, a: AgentAction, fuse: nat): nat {
    if IsBomb(a) then fuse else Max(0, cooldown - 1)
  }

  /** The reward of a turn taken with action `a` from tiles `g`, timers `t`
      and agent cell `p` that breaks `broken` walls: scored against the state
      observed once the old explosions are cleared and the state observed
      after the turn, with `fuse` the timer a new bomb gets. */
  function TurnReward(r: Rewards, g: seq<seq<TileType>>, t: seq<seq<nat>>, p: Vec2, a: AgentAction,
                      broken: nat, fuse: nat): real {
    var tiles := TurnTiles(g, t, p, a);
    ComputeReward(r, tiles, Observe(p, Cleared(g), t), a, Observe(TurnPosition(p, a), tiles, TurnTimers(t, p, a, fuse)), broken)
  }

  /** A turn starts by clearing old explosions; doing so beforehand changes
      neither the resulting tiles nor the number of walls broken. */
  lemma TurnAfterClearing(g: seq<seq<TileType>>, t: seq<seq<nat>>, p: Vec2, a: AgentAction)
    ensures TurnTiles(Cleared(g), t, p, a) == TurnTiles(g, t, p, a)
    ensures WallsBroken(Cleared(g), t) == WallsBroken(g, t)
  {
    SteppedCleared(g, t);
    ClearedProperties(g);
  }

  /** The bomb bookkeeping a single agent keeps on its board: every armed
      timer equals the agent's cooldown, and at most one cell is armed. */
  ghost predicate BombsTracked(t: seq<seq<nat>>, cooldown: nat) {
    (forall i, j {:trigger Armed(t, i, j)} :: Armed(t, i, j) ==> t[i][j] == cooldown)
    && (forall i1, j1, i2, j2 {:trigger Armed(t, i1, j1), Armed(t, i2, j2)} ::
          Armed(t, i1, j1) && Armed(t, i2, j2) ==> i1 == i2 && j1 == j2)
  }

  /** Cell (i, j) of `t` holds an armed bomb. */
  ghost predicate Armed(t: seq<seq<nat>>, i: int, j: int) {
    0 <= i < |t| && 0 <= j < |t[i]| && t[i][j] > 0
  }

  /** A tracked board never has two bombs going off in one step, so the wall
      counter of StepBombs stays exact on it. */
  lemma TrackedAtMostOne(t: seq<seq<nat>>, cooldown: nat)
    requires BombsTracked(t, cooldown)
    ensures AtMostOneDetonation(t)
  {
    forall i1, j1, i2, j2 |
      0 <= i1 < |t| && 0 <= j1 < |t[i1]| && 0 <= i2 < |t| && 0 <= j2 < |t[i2]|
      && t[i1][j1] == 1 && t[i2][j2] == 1
      ensures i1 == i2 && j1 == j2
    {
      assert Armed(t, i1, j1) && Armed(t, i2, j2);
    }
  }

  /** A turn with a legal action keeps the bomb bookkeeping: a bomb can only be
      placed once the cooldown is 0, when no cell is armed, and it is armed with
      the fuse that also restarts the cooldown. */
  lemma TurnKeepsTracked(g: seq<seq<TileType>>, t: seq<seq<nat>>, p: Vec2, cooldown: nat, fuse: nat, a: AgentAction)
    requires BombsTracked(t, cooldown) && a in LegalActions(g, p, cooldown)
    ensures BombsTracked(TurnTimers(t, p, a, fuse), TurnCooldown(cooldown, a, fuse))
  {
    var t1 := Ticked(t);
    if IsBomb(a) {
      ActionShape(a);
      DirectionLegal(g, p, cooldown, DirectionOf(a));
      assert cooldown == 0;
      forall i, j | 0 <= i < |t1| && 0 <= j < |t1[i]| ensures t1[i][j] == 0 {
        assert !Armed(t, i, j);
      }
    } else {
      forall i, j | Armed(t1, i, j) ensures Armed(t, i, j) && t1[i][j] == Max(0, cooldown - 1) {
        assert t1[i][j] == TickTimer(t[i][j]) && Armed(t, i, j);
      }
    }
  }

  /** After a turn with a legal action the board holds exactly as many breakable
      walls as before, less the ones the bomb step broke: a new bomb lands on a
      tile that was walkable, so arming it never covers a wall. */
  lemma TurnWallCount(g: seq<seq<TileType>>, t: seq<seq<nat>>, p: Vec2, cooldown: nat, a: AgentAction)
    requires a in LegalActions(g, p, cooldown)
    ensures CountGrid(TurnTiles(g, t, p, a), Breakable) == CountGrid(g, Breakable) - WallsBroken(g, t)
  {
    if IsBomb(a) {
      var q := Target(p, a);
      ActionShape(a);
      DirectionLegal(g, p, cooldown, DirectionOf(a));
      var s := Stepped(g, t);
      SteppedWalkable(g, t, q);
      CountGridSetCell(s, q, Unbreakable, Breakable);
    }
  }

  /** A walkable tile is never a breakable wall after the bomb step. */
  lemma SteppedWalkable(g: seq<seq<TileType>>, t: seq<seq<nat>>, q: Vec2)
    requires TileAt(g, q) == Walkable
    ensures InGrid(Stepped(g, t), q) && Stepped(g, t)[q.x][q.y] != Breakable
  {
  }

  // ---------------------------------------------------------------------
  // The agent object (AgentBehavior.cs:86-341)
  // ---------------------------------------------------------------------

  /** The agent: its cell on the board, its bomb's fuse length and the
      cooldown before it may place another bomb. */
  class AgentBehavior {
    var position: Vec2
    const bombTimer: nat
    var currentBombTimer: nat

    /** The fuse length lies in the range the source allows. */
    ghost predicate Valid() {
      1 <= bombTimer <= 5
    }

    /** An agent at `p` whose bombs burn for `timer` ticks and who may place one now. */
    constructor (p: Vec2, timer: nat)
      requires 1 <= timer <= 5
      ensures Valid() && position == p && bombTimer == timer && currentBombTimer == 0
    {
      position, bombTimer, currentBombTimer := p, timer, 0;
    }

    /** The handler of the board's bombs-stepped event: one tick off the cooldown, never below 0. */
    method OnBombsStepped()
      modifies this`currentBombTimer
      ensures currentBombTimer == Max(0, old(currentBombTimer) - 1)
      ensures old(currentBombTimer) > 0 ==> currentBombTimer == old(currentBombTimer) - 1
    {
      currentBombTimer := Max(0, currentBombTimer - 1);
    }

    /** The list of legal actions, built in the source's order. */
    method GetLegalActions(env: EnvironmentGenerator) returns (legal: seq<AgentAction>)
      requires env.Valid()
      ensures legal == LegalActions(env.Tiles(), position, currentBombTimer)
    {
      legal := [None];
      legal := AddDirection(env, legal, Up);
      legal := AddDirection(env, legal, Down);
      legal := AddDirection(env, legal, Right);
      legal := AddDirection(env, legal, Left);
    }

    /** Appends the move in direction `d` if its tile is walkable, then the bomb too if the cooldown is over. */
    method AddDirection(env: EnvironmentGenerator, legal: seq<AgentAction>, d: Direction) returns (legal': seq<AgentAction>)
      requires env.Valid()
      ensures legal' == legal + DirectionActions(env.Tiles(), position, currentBombTimer, d)
    {
      legal' := legal;
      if env.GetTileType(Neighbor(position, d)) == Walkable {
        legal' := legal' + [Move(d)];
        if currentBombTimer == 0 { legal' := legal' + [Bomb(d)]; }
      }
    }

    /** Adds the bomb at `p` with timer `t` to the danger of every non-wall cell of its cross
        (a cell off the board reads as a wall, so it is never written). */
    method MarkDanger(env: EnvironmentGenerator, danger: array2<nat>, p: Vec2, t: nat)
      requires env.Valid() && danger.Length0 == env.width && danger.Length1 == env.height
      modifies danger
      ensures forall i, j {:trigger danger[i, j]} :: 0 <= i < danger.Length0 && 0 <= j < danger.Length1 ==>
        danger[i, j] == if InCross(Vec2(i, j), p) && env.tileGrid[i, j] != Unbreakable
                        then DangerUpdate(old(danger[i, j]), t) else old(danger[i, j])
    {
      RaiseDanger(env, danger, p, t);
      RaiseDanger(env, danger, Neighbor(p, Up), t);
      RaiseDanger(env, danger, Neighbor(p, Down), t);
      RaiseDanger(env, danger, Neighbor(p, Right), t);
      RaiseDanger(env, danger, Neighbor(p, Left), t);
    }

    /** Updates the danger of cell `q` by a bomb timer `t`, unless `q` is a wall or off the board. */
    method RaiseDanger(env: EnvironmentGenerator, danger: array2<nat>, q: Vec2, t: nat)
      requires env.Valid() && danger.Length0 == env.width && danger.Length1 == env.height
      modifies danger
      ensures forall i, j {:trigger danger[i, j]} :: 0 <= i < danger.Length0 && 0 <= j < danger.Length1 ==>
        danger[i, j] == if Vec2(i, j) == q && env.tileGrid[i, j] != Unbreakable
                        then DangerUpdate(old(danger[i, j]), t) else old(danger[i, j])
    {
      if env.GetTileType(q) != Unbreakable {
        danger[q.x, q.y] := DangerUpdate(danger[q.x, q.y], t);
      }
    }

    /** The danger array holds what the scan has built by the time it reaches (x, y). */
    ghost predicate DangerScanned(danger: array2<nat>, tiles: seq<seq<TileType>>, ts: seq<seq<nat>>, x: int, y: int)
      reads danger
    {
      forall i, j {:trigger danger[i, j]} :: 0 <= i < danger.Length0 && 0 <= j < danger.Length1 ==>
        danger[i, j] == PartialDanger(tiles, ts, Vec2(i, j), x, y)
    }

    /** One cell of the state scan: copy the tile at (x, y), and if a bomb is
        armed there, mark its cross in the danger array. */
    method ScanStateCell(env: EnvironmentGenerator, tileCopy: array2<TileType>, danger: array2<nat>, x: nat, y: nat,
                         ghost tiles: seq<seq<TileType>>, ghost ts: seq<seq<nat>>)
      requires env.Valid() && tiles == env.Tiles() && ts == env.Timers() && tileCopy != env.tileGrid && danger != env.bombTimerGrid
      requires tileCopy.Length0 == env.width && tileCopy.Length1 == env.height
      requires danger.Length0 == env.width && danger.Length1 == env.height && x < env.width && y < env.height
      requires DangerScanned(danger, tiles, ts, x, y)
      modifies tileCopy, danger
      ensures forall i, j :: 0 <= i < tileCopy.Length0 && 0 <= j < tileCopy.Length1 ==>
        tileCopy[i, j] == if i == x && j == y then tiles[x][y] else old(tileCopy[i, j])
      ensures DangerScanned(danger, tiles, ts, x, y + 1)
    {
      tileCopy[x, y] := env.tileGrid[x, y];
      var timer := env.bombTimerGrid[x, y];
      if timer != 0 {
        MarkDanger(env, danger, Vec2(x, y), timer);
      }
      forall i, j {:trigger danger[i, j]} | 0 <= i < danger.Length0 && 0 <= j < danger.Length1
        ensures danger[i, j] == PartialDanger(tiles, ts, Vec2(i, j), x, y + 1)
      {
        PartialDangerStep(tiles, ts, Vec2(i, j), x, y);
      }
    }

    /** Column `x` of the state scan: every cell of the column in turn, then on to the next column. */
    method ScanStateColumn(env: EnvironmentGenerator, tileCopy: array2<TileType>, danger: array2<nat>, x: nat,
                           ghost tiles: seq<seq<TileType>>, ghost ts: seq<seq<nat>>)
      requires env.Valid() && tiles == env.Tiles() && ts == env.Timers() && tileCopy != env.tileGrid && danger != env.bombTimerGrid
      requires tileCopy.Length0 == env.width && tileCopy.Length1 == env.height
      requires danger.Length0 == env.width && danger.Length1 == env.height && x < env.width
      requires DangerScanned(danger, tiles, ts, x, 0)
      modifies tileCopy, danger
      ensures forall i, j :: 0 <= i < tileCopy.Length0 && 0 <= j < tileCopy.Length1 ==>
        tileCopy[i, j] == if i == x then tiles[i][j] else old(tileCopy[i, j])
      ensures DangerScanned(danger, tiles, ts, x + 1, 0)
    {
      var y := 0;
      while y < env.height
        invariant 0 <= y <= env.height
        invariant forall i, j :: 0 <= i < tileCopy.Length0 && 0 <= j < tileCopy.Length1 ==>
          tileCopy[i, j] == if i == x && j < y then tiles[i][j] else old(tileCopy[i, j])
        invariant DangerScanned(danger, tiles, ts, x, y)
      {
        ScanStateCell(env, tileCopy, danger, x, y, tiles, ts);
        y := y + 1;
      }
      forall i, j {:trigger danger[i, j]} | 0 <= i < danger.Length0 && 0 <= j < danger.Length1
        ensures danger[i, j] == PartialDanger(tiles, ts, Vec2(i, j), x + 1, 0)
      {
        PartialDangerColumn(tiles, ts, env.width, env.height, Vec2(i, j), x);
      }
    }

    /** A danger array of zeros is the scan's starting point. */
    lemma ScanStateStart(danger: array2<nat>, tiles: seq<seq<TileType>>, ts: seq<seq<nat>>)
      requires IsGrid(ts, danger.Length0, danger.Length1)
      requires forall i, j :: 0 <= i < danger.Length0 && 0 <= j < danger.Length1 ==> danger[i, j] == 0
      ensures DangerScanned(danger, tiles, ts, 0, 0)
    {
      forall i, j {:trigger danger[i, j]} | 0 <= i < danger.Length0 && 0 <= j < danger.Length1
        ensures danger[i, j] == PartialDanger(tiles, ts, Vec2(i, j), 0, 0)
      {
        PartialDangerEnds(tiles, ts, danger.Length0, danger.Length1, Vec2(i, j));
      }
    }

    /** After the last column, the arrays hold the tiles and the danger map. */
    lemma ScanStateFinished(tileCopy: array2<TileType>, danger: array2<nat>, tiles: seq<seq<TileType>>, ts: seq<seq<nat>>)
      requires IsGrid(tiles, tileCopy.Length0, tileCopy.Length1) && IsGrid(ts, tileCopy.Length0, tileCopy.Length1)
      requires danger.Length0 == tileCopy.Length0 && danger.Length1 == tileCopy.Length1
      requires forall i, j :: 0 <= i < tileCopy.Length0 && 0 <= j < tileCopy.Length1 ==> tileCopy[i, j] == tiles[i][j]
      requires DangerScanned(danger, tiles, ts, tileCopy.Length0, 0)
      ensures Snapshot(tileCopy) == tiles && Snapshot(danger) == DangerMap(tiles, ts)
    {
      var w, h := tileCopy.Length0, tileCopy.Length1;
      forall i, j | 0 <= i < w && 0 <= j < h ensures danger[i, j] == DangerMap(tiles, ts)[i][j] {
        PartialDangerEnds(tiles, ts, w, h, Vec2(i, j));
      }
      GridExt(Snapshot(tileCopy), tiles, w, h);
      GridExt(Snapshot(danger), DangerMap(tiles, ts), w, h);
    }

    /** The state the agent observes: its position, a copy of the tiles and the danger map,
        filled by one column-by-column scan of the board. */
    method GetCurrentState(env: EnvironmentGenerator) returns (s: AgentState)
      requires env.Valid()
      ensures s == Observe(position, env.Tiles(), env.Timers())
    {
      ghost var tiles, ts := env.Tiles(), env.Timers();
      var w, h := env.width, env.height;
      var tileCopy := new TileType[w, h]((i, j) => Walkable);
      var danger := new nat[w, h]((i, j) => 0);
      ScanStateStart(danger, tiles, ts);
      var x := 0;
      while x < w
        invariant 0 <= x <= w
        invariant forall i, j :: 0 <= i < x && 0 <= j < h ==> tileCopy[i, j] == tiles[i][j]
        invariant DangerScanned(danger, tiles, ts, x, 0)
      {
        ScanStateColumn(env, tileCopy, danger, x, tiles, ts);
        x := x + 1;
      }
      ScanStateFinished(tileCopy, danger, tiles, ts);
      s := AgentState(position, Snapshot(tileCopy), Snapshot(danger));
    }
  
    /** One turn: clear old explosions, observe, act, observe again and score
        the turn. `broken` is the number of walls the turn's bomb step broke. */
    method TakeAction(env: EnvironmentGenerator, action: AgentAction, rewards: Rewards)
      returns (next: AgentState, reward: real, ghost broken: nat)
      requires env.Valid() && Valid()
      requires IsBomb(action) ==> TileInBounds(Target(position, action), env.width, env.height)
      requires action != None && !IsBomb(action) ==> TileInBounds(position, env.width, env.height)
      modifies this`position, this`currentBombTimer, env`breakableWallCount, env.tileGrid, env.bombTimerGrid
      ensures env.Valid()
      ensures env.Tiles() == TurnTiles(old(env.Tiles()), old(env.Timers()), old(position), action)
      ensures env.Timers() == TurnTimers(old(env.Timers()), old(position), action, bombTimer)
      ensures position == TurnPosition(old(position), action)
      ensures currentBombTimer == TurnCooldown(old(currentBombTimer), action, bombTimer)
      ensures broken == WallsBroken(old(env.Tiles()), old(env.Timers()))
      ensures AtMostOneDetonation(old(env.Timers())) ==> env.breakableWallCount == old(env.breakableWallCount) - broken
      ensures next == Observe(position, env.Tiles(), env.Timers())
      ensures reward == ComputeReward(rewards, env.Tiles(), Observe(old(position), Cleared(old(env.Tiles())), old(env.Timers())),
                                      action, next, broken)
    {
      ghost var g0, t0, p0 := env.Tiles(), env.Timers(), position;
      env.ClearExplosions();
      var state := GetCurrentState(env);
      assert state == Observe(p0, Cleared(g0), t0);
      next, reward, broken := ActAndScore(env, action, rewards, state);
      TurnAfterClearing(g0, t0, p0, action);
    }

    /** The rest of a turn, on a board whose explosions are cleared: act,
        observe the new board and score the turn against `state`. */
    method ActAndScore(env: EnvironmentGenerator, action: AgentAction, rewards: Rewards, state: AgentState)
      returns (next: AgentState, reward: real, ghost broken: nat)
      requires env.Valid() && Valid()
      requires IsBomb(action) ==> TileInBounds(Target(position, action), env.width, env.height)
      modifies this`position, this`currentBombTimer, env`breakableWallCount, env.tileGrid, env.bombTimerGrid
      ensures env.Valid()
      ensures env.Tiles() == TurnTiles(old(env.Tiles()), old(env.Timers()), old(position), action)
      ensures env.Timers() == TurnTimers(old(env.Timers()), old(position), action, bombTimer)
      ensures position == TurnPosition(old(position), action)
      ensures currentBombTimer == TurnCooldown(old(currentBombTimer), action, bombTimer)
      ensures broken == WallsBroken(old(env.Tiles()), old(env.Timers()))
      ensures AtMostOneDetonation(old(env.Timers())) ==> env.breakableWallCount == old(env.breakableWallCount) - broken
      ensures next == Observe(position, env.Tiles(), env.Timers())
      ensures reward == ComputeReward(rewards, env.Tiles(), state, action, next, broken)
    {
      var brokenWalls := Act(env, action);
      broken := brokenWalls;
      next := GetCurrentState(env);
      reward := ComputeReward(rewards, env.Tiles(), state, action, next, brokenWalls);
    }

    /** The action itself: a bomb action places a bomb on its target cell, any
        other action moves to its target (standing still for None); either
        way the bombs step once. */
    method Act(env: EnvironmentGenerator, action: AgentAction) returns (brokenWalls: nat)
      requires env.Valid() && Valid()
      requires IsBomb(action) ==> TileInBounds(Target(position, action), env.width, env.height)
      modifies this`position, this`currentBombTimer, env`breakableWallCount, env.tileGrid, env.bombTimerGrid
      ensures env.Tiles() == TurnTiles(old(env.Tiles()), old(env.Timers()), old(position), action)
      ensures env.Timers() == TurnTimers(old(env.Timers()), old(position), action, bombTimer)
      ensures position == TurnPosition(old(position), action)
      ensures currentBombTimer == TurnCooldown(old(currentBombTimer), action, bombTimer)
      ensures brokenWalls == WallsBroken(old(env.Tiles()), old(env.Timers()))
      ensures AtMostOneDetonation(old(env.Timers())) ==> env.breakableWallCount == old(env.breakableWallCount) - brokenWalls
    {
      if IsBomb(action) {
        brokenWalls := PlaceBomb(env, Target(position, action));
      } else {
        brokenWalls := MoveTo(env, Target(position, action));
      }
    }

    /** A move (or standing still) to cell `p`: move, then step the bombs. */
    method MoveTo(env: EnvironmentGenerator, p: Vec2) returns (brokenWalls: nat)
      requires env.Valid()
      modifies this`position, this`currentBombTimer, env`breakableWallCount, env.tileGrid, env.bombTimerGrid
      ensures env.Tiles() == Stepped(old(env.Tiles()), old(env.Timers()))
      ensures env.Timers() == Ticked(old(env.Timers()))
      ensures position == p && currentBombTimer == Max(0, old(currentBombTimer) - 1)
      ensures brokenWalls == WallsBroken(old(env.Tiles()), old(env.Timers()))
      ensures AtMostOneDetonation(old(env.Timers())) ==> env.breakableWallCount == old(env.breakableWallCount) - brokenWalls
    {
      position := p;
      brokenWalls := env.StepBombs();
      OnBombsStepped();
    }

    /** A bomb action aimed at cell `q`: step the bombs, arm the new bomb on
        `q` and restart the cooldown. (The cooldown is reset after the grid
        writes here; the two touch different objects, so the order does not
        change the outcome.) */
    method PlaceBomb(env: EnvironmentGenerator, q: Vec2) returns (brokenWalls: nat)
      requires env.Valid() && Valid() && TileInBounds(q, env.width, env.height)
      modifies this`currentBombTimer, env`breakableWallCount, env.tileGrid, env.bombTimerGrid
      ensures env.Tiles() == SetCell(Stepped(old(env.Tiles()), old(env.Timers())), q, Unbreakable)
      ensures env.Timers() == SetCell(Ticked(old(env.Timers())), q, bombTimer)
      ensures currentBombTimer == bombTimer
      ensures brokenWalls == WallsBroken(old(env.Tiles()), old(env.Timers()))
      ensures AtMostOneDetonation(old(env.Timers())) ==> env.breakableWallCount == old(env.breakableWallCount) - brokenWalls
    {
      brokenWalls := env.StepBombs();
      ArmBomb(env, q);
      OnBombsStepped();
      currentBombTimer := bombTimer;
    }

    /** Places a freshly lit bomb on cell `q`: the cell becomes an unbreakable
        tile and its timer the full fuse. */
    method ArmBomb(env: EnvironmentGenerator, q: Vec2)
      requires env.Valid() && TileInBounds(q, env.width, env.height)
      modifies env.tileGrid, env.bombTimerGrid
      ensures env.Tiles() == SetCell(old(env.Tiles()), q, Unbreakable)
      ensures env.Timers() == SetCell(old(env.Timers()), q, bombTimer)
    {
      env.SetTile(q, Unbreakable);
      env.SetBombTimer(q, bombTimer);
    }
  }
}
