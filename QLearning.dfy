/** The tabular Q-learning trainer: the Q-table, the epsilon-greedy choice of
    action, the Bellman update, parameter decay and the episode bookkeeping. */
module QLearning {
  import opened Environment
  import opened Agent

  // ---------------------------------------------------------------------
  // The Q-table
  // ---------------------------------------------------------------------

  /** The Q-values of a state never seen before: one zero per action. */
  function ZeroValues(): (v: seq<real>)
    ensures |v| == ActionCount && forall i :: 0 <= i < |v| ==> v[i] == 0.0
  {
    seq(ActionCount, _ => 0.0)
  }

  /** Every stored vector has one slot per action. */
  ghost predicate WellFormed(t: map<AgentState, seq<real>>) {
    forall s :: s in t ==> |t[s]| == ActionCount
  }

  /** The table after the values of `s` are fetched: a state not yet in the
      table is added with all-zero values, a known one is left as it is. */
  function Fetched(t: map<AgentState, seq<real>>, s: AgentState): (r: map<AgentState, seq<real>>)
    ensures r.Keys == t.Keys + {s}
    ensures forall k :: k in t ==> r[k] == t[k]
    ensures s !in t ==> r[s] == ZeroValues()
    ensures WellFormed(t) ==> WellFormed(r)
  {
    if s in t then t else t[s := ZeroValues()]
  }

  /** The table after `v` is stored for action `a` in state `s`: the other
      slots of `s` keep their values (zeros for a new state) and no other
      state changes. */
  function Stored(t: map<AgentState, seq<real>>, s: AgentState, a: AgentAction, v: real): (r: map<AgentState, seq<real>>)
    requires WellFormed(t)
    ensures r.Keys == t.Keys + {s} && WellFormed(r)
    ensures r[s][Ordinal(a)] == v
    ensures forall i :: 0 <= i < ActionCount && i != Ordinal(a) ==> r[s][i] == (if s in t then t[s][i] else 0.0)
    ensures forall k :: k in t && k != s ==> r[k] == t[k]
  {
    var base := if s in t then t[s] else ZeroValues();
    t[s := base[Ordinal(a) := v]]
  }

  /** Storing into a state that was fetched first gives the same table as
      storing into it directly. */
  lemma StoreAfterFetch(t: map<AgentState, seq<real>>, s: AgentState, a: AgentAction, v: real)
    requires WellFormed(t)
    ensures Stored(Fetched(t, s), s, a, v) == Stored(t, s, a, v)
  {
    if s !in t {
      assert Fetched(t, s)[s] == ZeroValues();
    }
  }

  /** Writing back the value a slot already holds leaves the table as it is. */
  lemma StoreSameValue(t: map<AgentState, seq<real>>, s: AgentState, a: AgentAction)
    requires WellFormed(t) && s in t
    ensures Stored(t, s, a, t[s][Ordinal(a)]) == t
  {
    var r := Stored(t, s, a, t[s][Ordinal(a)]);
    assert r[s] == t[s];
  }

  /** A fetch after a store returns the stored value in its slot. */
  lemma FetchAfterStore(t: map<AgentState, seq<real>>, s: AgentState, a: AgentAction, v: real)
    requires WellFormed(t)
    ensures Fetched(Stored(t, s, a, v), s) == Stored(t, s, a, v)
    ensures Fetched(Stored(t, s, a, v), s)[s][Ordinal(a)] == v
  {
  }

  /** With a zero learning rate the update of the Q-learning step writes
      back the value it read, so every known state keeps its values. */
  lemma FrozenUpdate(t0: map<AgentState, seq<real>>, s: AgentState, next: AgentState, a: AgentAction,
                     reward: real, gamma: real)
    requires WellFormed(t0)
    ensures var t2 := Fetched(Fetched(t0, s), next);
      var u := Stored(t2, s, a, Bellman(Fetched(t0, s)[s][Ordinal(a)], 0.0, reward, gamma, MaxOf(t2[next])));
      t0.Keys <= u.Keys && forall k :: k in t0 ==> u[k] == t0[k]
  {
    var t1 := Fetched(t0, s);
    var t2 := Fetched(t1, next);
    StoreSameValue(t2, s, a);
  }

  /** The Q-table: a dictionary from states to one value per action. The
      vectors handed out are values, not shared arrays. */
  class QTable {
    var table: map<AgentState, seq<real>>

    ghost predicate Valid()
      reads this
    {
      WellFormed(table)
    }

    /** An empty table. */
    constructor ()
      ensures Valid() && table == map[]
    {
      table := map[];
    }

    /** The values of `s`, adding all zeros for an unknown state. */
    method GetQValues(s: AgentState) returns (v: seq<real>)
      requires Valid()
      modifies this
      ensures Valid() && table == Fetched(old(table), s)
      ensures v == table[s] && |v| == ActionCount
      ensures s in old(table) ==> v == old(table)[s]
    {
      if s in table {
        v := table[s];
      } else {
        v := ZeroValues();
        table := table[s := v];
      }
    }

    /** Stores `value` for action `a` in state `s`. */
    method SetQValue(s: AgentState, a: AgentAction, value: real)
      requires Valid()
      modifies this
      ensures Valid() && table == Stored(old(table), s, a, value)
    {
      if s in table {
        var v := table[s];
        table := table[s := v[Ordinal(a) := value]];
      } else {
        var v := ZeroValues();
        v := v[Ordinal(a) := value];
        table := table[s := v];
      }
    }
  }

  // ---------------------------------------------------------------------
  // Values
  // ---------------------------------------------------------------------

  /** The largest entry of a non-empty vector. */
  function MaxOf(v: seq<real>): (m: real)
    requires |v| > 0
    ensures forall i :: 0 <= i < |v| ==> v[i] <= m
    ensures exists i :: 0 <= i < |v| && v[i] == m
  {
    if |v| == 1 then v[0]
    else
      var m' := MaxOf(v[..|v| - 1]);
      if v[|v| - 1] > m' then v[|v| - 1] else m'
  }

  /** An unseen next state contributes nothing to the update. */
  lemma MaxOfZeros()
    ensures MaxOf(ZeroValues()) == 0.0
  {
    var z := ZeroValues();
    var m := MaxOf(z);
    var i :| 0 <= i < |z| && z[i] == m;
  }

  /** `x` lies between `a` and `b`, whichever is larger. */
  predicate Between(x: real, a: real, b: real) {
    (a <= x <= b) || (b <= x <= a)
  }

  /** Moving from `a` towards `b` by a fraction `t` of the way stays between them. */
  lemma ScaledStep(a: real, b: real, t: real)
    ensures 0.0 <= t <= 1.0 ==> Between(a + t * (b - a), a, b) && Between(a + (b - a) * t, a, b)
  {
    if 0.0 <= t <= 1.0 {
      var d := if a <= b then b - a else a - b;
      assert t * d >= 0.0 && (1.0 - t) * d >= 0.0;
      assert (1.0 - t) * d == d - t * d;
    }
  }

  /** The Bellman update of `q` towards the target `reward + gamma * nextMax`
      with learning rate `alpha`: a zero rate keeps the old value, a unit rate
      jumps to the target, and any rate in between lands between the two. */
  function Bellman(q: real, alpha: real, reward: real, gamma: real, nextMax: real): (v: real)
    ensures alpha == 0.0 ==> v == q
    ensures alpha == 1.0 ==> v == reward + gamma * nextMax
    ensures 0.0 <= alpha <= 1.0 ==> Between(v, q, reward + gamma * nextMax)
  {
    ScaledStep(q, reward + gamma * nextMax, alpha);
    q + alpha * (reward + gamma * nextMax - q)
  }

  // ---------------------------------------------------------------------
  // Parameter decay
  // ---------------------------------------------------------------------

  /** The value decayed parameters approach at the end of training. */
  const DecayFloor: real := 0.001

  /** `x` clamped to the unit interval. */
  function Clamp01(x: real): (r: real)
    ensures 0.0 <= r <= 1.0
    ensures 0.0 <= x <= 1.0 ==> r == x
  {
    if x < 0.0 then 0.0 else if x > 1.0 then 1.0 else x
  }

  /** Linear interpolation from `a` to `b`, with `t` clamped to the unit interval. */
  function Lerp(a: real, b: real, t: real): real {
    a + (b - a) * Clamp01(t)
  }

  /** The value a decayed parameter takes this step: zero when not learning,
      the parameter itself without decay, and otherwise the parameter moved
      towards the floor by the fraction of the episode budget used, so that
      it starts at the parameter, reaches the floor once the budget is spent
      and stays between the two in the meantime. */
  function Decayed(p: real, learning: bool, decay: bool, episodes: nat, maxEpisodes: nat): (v: real)
    requires maxEpisodes > 0
    ensures !learning ==> v == 0.0
    ensures learning && !decay ==> v == p
    ensures learning && decay ==> Between(v, p, DecayFloor)
    ensures learning && decay && episodes == 0 ==> v == p
    ensures learning && decay && episodes >= maxEpisodes ==> v == DecayFloor
  {
    if !learning then 0.0
    else if decay then
      var progress := episodes as real / maxEpisodes as real;
      ScaledStep(p, DecayFloor, Clamp01(progress));
      assert progress * maxEpisodes as real == episodes as real;
      assert episodes >= maxEpisodes ==> progress >= 1.0;
      Lerp(p, DecayFloor, progress)
    else p
  }

  // ---------------------------------------------------------------------
  // Choosing an action
  // ---------------------------------------------------------------------

  /** The running maximum of the greedy scan: it starts below every value. */
  datatype Best = NegativeInfinity | Finite(value: real)

  predicate Beats(x: real, b: Best) {
    b.NegativeInfinity? || x > b.value
  }

  /** Ordinal `i` is the greedy choice among the legal actions: legal, with a
      value at least every legal value, and the lowest ordinal doing so. */
  ghost predicate IsGreedy(q: seq<real>, legal: seq<AgentAction>, i: nat)
    requires |q| == ActionCount
  {
    i < ActionCount && ActionOf(i) in legal
    && (forall j :: 0 <= j < ActionCount && ActionOf(j) in legal ==> q[j] <= q[i])
    && (forall j :: 0 <= j < i && ActionOf(j) in legal ==> q[j] < q[i])
  }

  /** There is only one greedy choice. */
  lemma GreedyUnique(q: seq<real>, legal: seq<AgentAction>, i: nat, k: nat)
    requires |q| == ActionCount && IsGreedy(q, legal, i) && IsGreedy(q, legal, k)
    ensures i == k
  {
  }

  /** Scans the values in ordinal order, keeping the first strictly larger
      legal value. */
  method GreedyOrdinal(q: seq<real>, legal: seq<AgentAction>) returns (best: nat)
    requires |q| == ActionCount && None in legal
    ensures IsGreedy(q, legal, best)
  {
    var largest := NegativeInfinity;
    best := 0;
    for i := 0 to |q|
      invariant best < ActionCount
      invariant largest.NegativeInfinity? ==> forall j :: 0 <= j < i ==> ActionOf(j) !in legal
      invariant largest.Finite? ==> best < i && ActionOf(best) in legal && largest.value == q[best]
      invariant largest.Finite? ==> forall j :: 0 <= j < i && ActionOf(j) in legal ==> q[j] <= q[best]
      invariant largest.Finite? ==> forall j :: 0 <= j < best && ActionOf(j) in legal ==> q[j] < q[best]
    {
      if ActionOf(i) in legal {
        var value := q[i];
        if Beats(value, largest) {
          largest := Finite(value);
          best := i;
        }
      }
    }
    assert ActionOf(0) == None;
  }

  /** The position of the first occurrence of `x` in `s`, or -1. */
  function IndexOf(s: seq<AgentAction>, x: AgentAction): (i: int)
    ensures x in s ==> 0 <= i < |s| && s[i] == x && x !in s[..i]
    ensures x !in s ==> i == -1
  {
    if s == [] then -1
    else if s[0] == x then 0
    else
      var k := IndexOf(s[1..], x);
      assert x in s ==> x in s[1..];
      if k < 0 then -1 else (assert s[..k + 1] == [s[0]] + s[1..][..k]; k + 1)
  }

  /** Epsilon-greedy choice of a position in `legal`: below `epsilon` the roll
      explores with the random pick, otherwise the greedy action is taken. */
  method ChooseIndex(roll: real, pick: nat, epsilon: real, q: seq<real>, legal: seq<AgentAction>) returns (index: nat)
    requires |q| == ActionCount && None in legal
    ensures index < |legal|
    ensures roll < epsilon ==> index == pick % |legal|
    ensures roll >= epsilon ==> IsGreedy(q, legal, Ordinal(legal[index])) && legal[index] !in legal[..index]
  {
    if roll < epsilon {
      index := pick % |legal|;
    } else {
      var best := GreedyOrdinal(q, legal);
      index := IndexOf(legal, ActionOf(best));
    }
  }

  /** `action` is the epsilon-greedy choice among the legal actions `legal`
      for the values `q`: below `epsilon` the roll explores with entry `pick`
      (modulo the list's length), otherwise the greedy action is taken. */
  ghost predicate EpsilonGreedy(roll: real, pick: nat, epsilon: real, q: seq<real>, legal: seq<AgentAction>,
                                action: AgentAction)
  {
    |q| == ActionCount && |legal| > 0 && action in legal
    && (roll < epsilon ==> action == legal[pick % |legal|])
    && (roll >= epsilon ==> IsGreedy(q, legal, Ordinal(action)))
  }

  // ---------------------------------------------------------------------
  // Episodes
  // ---------------------------------------------------------------------

  /** The number of recent episodes the snapshot win rate looks at. */
  const SnapshotSize: nat := 100

  /** An episode ends when the agent dies, no breakable wall is left or the
      turn budget is exceeded. */
  predicate EpisodeOver(reward: real, death: real, wallsLeft: int, turns: int, maxTurns: int) {
    reward == death || wallsLeft == 0 || turns > maxTurns
  }

  /** No cell of `g` holds `v`. */
  ghost predicate Absent<T>(g: seq<seq<T>>, v: T) {
    forall i, j :: 0 <= i < |g| && 0 <= j < |g[i]| ==> g[i][j] != v
  }

  lemma {:induction false} CountInZero<T>(s: seq<T>, v: T)
    ensures CountIn(s, v) == 0 <==> forall j :: 0 <= j < |s| ==> s[j] != v
  {
    if s != [] {
      CountInZero(s[..|s| - 1], v);
    }
  }

  /** A count of zero means the value is nowhere on the board. */
  lemma {:induction false} CountGridZero<T>(g: seq<seq<T>>, v: T)
    ensures CountGrid(g, v) == 0 <==> Absent(g, v)
  {
    if g != [] {
      var n := |g| - 1;
      CountGridZero(g[..n], v);
      CountInZero(g[n], v);
      if CountGrid(g, v) == 0 {
        forall i, j | 0 <= i < |g| && 0 <= j < |g[i]| ensures g[i][j] != v {
          if i < n {
            assert g[..n][i] == g[i];
          }
        }
      }
    }
  }

  /** With the default rewards an episode ends exactly when the agent stands
      in an explosion, the board has no breakable wall left, or the turn
      budget is exceeded. */
  lemma EpisodeOverMeaning(live: seq<seq<TileType>>, state: AgentState, action: AgentAction,
                           next: AgentState, broken: nat, turns: int, maxTurns: int)
    ensures EpisodeOver(ComputeReward(DefaultRewards, live, state, action, next, broken), DefaultRewards.death,
                        CountGrid(live, Breakable), turns, maxTurns)
        <==> TileAt(live, next.agentPosition) == Explosion || Absent(live, Breakable) || turns > maxTurns
  {
    DefaultDeathRewardExact(live, state, action, next, broken);
    CountGridZero(live, Breakable);
  }

  /** The outcomes of the last `SnapshotSize` episodes. */
  function Recent(outcomes: seq<bool>): (r: seq<bool>)
    ensures |r| == Min(|outcomes|, SnapshotSize)
  {
    if |outcomes| <= SnapshotSize then outcomes else outcomes[|outcomes| - SnapshotSize..]
  }

  /** The bounded queue after one more outcome: the oldest is dropped when full. */
  function Enqueued(window: seq<bool>, win: bool): seq<bool> {
    (if |window| == SnapshotSize then window[1..] else window) + [win]
  }

  /** Pushing an outcome into the window of recent outcomes gives the window
      of the extended history. */
  lemma EnqueueRecent(outcomes: seq<bool>, win: bool)
    ensures Enqueued(Recent(outcomes), win) == Recent(outcomes + [win])
  {
    var n := |outcomes|;
    if n >= SnapshotSize {
      assert Recent(outcomes)[1..] == outcomes[n - SnapshotSize + 1..];
      assert (outcomes + [win])[n + 1 - SnapshotSize..] == outcomes[n - SnapshotSize + 1..] + [win];
    }
  }

  /** One more outcome: the win count grows exactly on a win, and the queue
      with the outcome pushed is the window of the longer history. */
  lemma RecordedOutcome(outcomes: seq<bool>, win: bool, wins: nat, window: seq<bool>)
    requires wins == CountIn(outcomes, true) && window == Recent(outcomes)
    ensures CountIn(outcomes + [win], true) == if win then wins + 1 else wins
    ensures Enqueued(window, win) == Recent(outcomes + [win])
    ensures |Enqueued(window, win)| == Min(|outcomes| + 1, SnapshotSize)
  {
    EnqueueRecent(outcomes, win);
    assert (outcomes + [win])[..|outcomes|] == outcomes;
  }

  /** A win rate: the share of `episodes` that were won (zero before the first). */
  function Rate(wins: nat, episodes: nat): real {
    if episodes == 0 then 0.0 else wins as real / episodes as real
  }

  lemma {:induction false} CountInAtMost<T>(s: seq<T>, v: T)
    ensures CountIn(s, v) <= |s|
  {
    if s != [] {
      CountInAtMost(s[..|s| - 1], v);
    }
  }

  /** A win rate lies in the unit interval. */
  lemma RateBounds(wins: nat, episodes: nat)
    requires wins <= episodes
    ensures 0.0 <= Rate(wins, episodes) <= 1.0
  {
    if episodes > 0 {
      assert wins as real / episodes as real * episodes as real == wins as real;
    }
  }

  // ---------------------------------------------------------------------
  // The trainer
  // ---------------------------------------------------------------------

  /** Tiles `g`, timers `t`, the wall counter and the agent's cell and
      cooldown agree: the agent stands on the board, the counter counts the
      breakable walls, and the cooldown tracks the agent's only bomb. */
  ghost predicate Consistent(g: seq<seq<TileType>>, t: seq<seq<nat>>, counter: int, p: Vec2, cooldown: nat, w: nat, h: nat) {
    TileInBounds(p, w, h) && counter == CountGrid(g, Breakable) && BombsTracked(t, cooldown)
  }

  /** A legal turn keeps the board consistent: its target is on the board,
      at most one bomb goes off, the counter drops by the walls it breaks. */
  lemma TurnConsistent(g: seq<seq<TileType>>, t: seq<seq<nat>>, counter: int, p: Vec2, cooldown: nat, fuse: nat,
                       a: AgentAction, w: nat, h: nat)
    requires IsGrid(g, w, h) && Consistent(g, t, counter, p, cooldown, w, h) && a in LegalActions(g, p, cooldown)
    ensures TileInBounds(Target(p, a), w, h) && AtMostOneDetonation(t)
    ensures Consistent(TurnTiles(g, t, p, a), TurnTimers(t, p, a, fuse), counter - WallsBroken(g, t),
                       TurnPosition(p, a), TurnCooldown(cooldown, a, fuse), w, h)
  {
    LegalTargetsInBounds(g, w, h, p, cooldown, a);
    TrackedAtMostOne(t, cooldown);
    TurnKeepsTracked(g, t, p, cooldown, fuse, a);
    TurnWallCount(g, t, p, cooldown, a);
  }

  /** The board and the agent agree, on a board with at least one cell. */
  ghost predicate Playable(env: EnvironmentGenerator, agent: AgentBehavior)
    reads env, env.tileGrid, env.bombTimerGrid, agent
  {
    env.Valid() && agent.Valid() && env.width >= 1 && env.height >= 1
    && Consistent(env.Tiles(), env.Timers(), env.breakableWallCount, agent.position, agent.currentBombTimer,
                  env.width, env.height)
  }

  /** A freshly generated board: the generator's pattern for its size, no
      bomb anywhere, and the agent on the spawn cell. */
  ghost predicate FreshBoard(env: EnvironmentGenerator, agent: AgentBehavior)
    reads env, env.tileGrid, env.bombTimerGrid, agent
  {
    env.Tiles() == PatternTiles(env.width, env.height, env.breakableWallPattern)
    && env.Timers() == ZeroTimers(env.width, env.height)
    && agent.position == GetSpawnPosition(env.width, env.height, env.breakableWallPattern)
  }

  /** A board reached by a legal turn from a consistent one (tiles `g`,
      timers `t`, counter, agent cell `p` and cooldown) is playable. */
  lemma TurnPlayable(env: EnvironmentGenerator, agent: AgentBehavior, g: seq<seq<TileType>>, t: seq<seq<nat>>,
                     counter: int, p: Vec2, cooldown: nat, action: AgentAction)
    requires env.Valid() && agent.Valid() && env.width >= 1 && env.height >= 1 && IsGrid(g, env.width, env.height)
    requires Consistent(g, t, counter, p, cooldown, env.width, env.height) && action in LegalActions(g, p, cooldown)
    requires env.Tiles() == TurnTiles(g, t, p, action)
    requires env.Timers() == TurnTimers(t, p, action, agent.bombTimer)
    requires agent.position == TurnPosition(p, action)
    requires agent.currentBombTimer == TurnCooldown(cooldown, action, agent.bombTimer)
    requires env.breakableWallCount == counter - WallsBroken(g, t)
    ensures Playable(env, agent)
  {
    TurnConsistent(g, t, counter, p, cooldown, agent.bombTimer, action, env.width, env.height);
  }

  /** A fresh board with the agent at the spawn cell is playable whatever the cooldown. */
  lemma ZeroTimersTracked(w: nat, h: nat, cooldown: nat)
    ensures BombsTracked(ZeroTimers(w, h), cooldown)
  {
  }

  /** The counters and rates describe the recorded outcomes. */
  ghost predicate RecordsOf(outcomes: seq<bool>, episodes: nat, wins: nat, rate: real, recent: seq<bool>, recentRate: real) {
    |outcomes| == episodes && wins == CountIn(outcomes, true)
    && recent == Recent(outcomes)
    && rate == Rate(wins, episodes)
    && recentRate == Rate(CountIn(recent, true), |recent|)
  }

  /** The trainer: runs episodes of the agent on the board and learns a Q-table. */
  class QLearning {
    const env: EnvironmentGenerator
    const agent: AgentBehavior
    const rewards: Rewards
    const epsilon: real
    const alpha: real
    const discountFactor: real
    const maximumEpisodeCount: nat
    const maximumTurnsPerEpisode: int
    const parameterDecay: bool

    var decayedEpsilon: real
    var decayedAlpha: real
    var episodeCount: nat
    var turnCount: nat
    var winCount: nat
    var overallWinRate: real
    var snapshotWinRate: real
    var qTable: QTable?
    var agentState: AgentState
    var snapshotWins: seq<bool>
    var learning: bool
    /** Every episode's outcome so far, oldest first. */
    ghost var outcomes: seq<bool>

    /** The counters and rates describe the recorded outcomes. */
    ghost predicate Records()
      reads this`episodeCount, this`winCount, this`overallWinRate, this`snapshotWinRate, this`snapshotWins, this`outcomes
    {
      RecordsOf(outcomes, episodeCount, winCount, overallWinRate, snapshotWins, snapshotWinRate)
    }

    /** Everything but the episode budget: the board is playable, the
        records are consistent, no episode has run past its turn budget and
        a started trainer observes the live board. */
    ghost predicate Steady()
      reads this, env, env.tileGrid, env.bombTimerGrid, agent, qTable
    {
      Playable(env, agent) && Records() && maximumEpisodeCount > 0
      && turnCount <= Max(0, maximumTurnsPerEpisode)
      && (qTable != null ==> qTable.Valid() && agentState == Observe(agent.position, env.Tiles(), env.Timers()))
    }

    /** The trainer invariant: also, learning stops once the episode budget is spent. */
    ghost predicate Valid()
      reads this, env, env.tileGrid, env.bombTimerGrid, agent, qTable
    {
      Steady() && (learning ==> episodeCount <= maximumEpisodeCount)
    }

    /** A trainer that has not started learning. */
    constructor (env: EnvironmentGenerator, agent: AgentBehavior, rewards: Rewards,
                 epsilon: real, alpha: real, discountFactor: real,
                 maximumEpisodeCount: nat, maximumTurnsPerEpisode: int, parameterDecay: bool)
      requires Playable(env, agent) && maximumEpisodeCount > 0
      ensures Valid() && !learning && qTable == null
      ensures this.env == env && this.agent == agent && this.rewards == rewards
      ensures this.epsilon == epsilon && this.alpha == alpha && this.discountFactor == discountFactor
      ensures this.maximumEpisodeCount == maximumEpisodeCount && this.maximumTurnsPerEpisode == maximumTurnsPerEpisode
      ensures this.parameterDecay == parameterDecay
      ensures episodeCount == 0 && turnCount == 0 && winCount == 0 && outcomes == []
    {
      this.env, this.agent, this.rewards := env, agent, rewards;
      this.epsilon, this.alpha, this.discountFactor := epsilon, alpha, discountFactor;
      this.maximumEpisodeCount, this.maximumTurnsPerEpisode := maximumEpisodeCount, maximumTurnsPerEpisode;
      this.parameterDecay := parameterDecay;
      decayedEpsilon, decayedAlpha := 0.0, 0.0;
      episodeCount, turnCount, winCount := 0, 0, 0;
      overallWinRate, snapshotWinRate := 0.0, 0.0;
      qTable := null;
      agentState := AgentState(agent.position, [], []);
      snapshotWins := [];
      learning := false;
      outcomes := [];
    }

    /** The win rates are shares. */
    lemma RatesInRange()
      requires Records()
      ensures 0.0 <= overallWinRate <= 1.0 && 0.0 <= snapshotWinRate <= 1.0
    {
      CountInAtMost(outcomes, true);
      CountInAtMost(snapshotWins, true);
      RateBounds(winCount, episodeCount);
      RateBounds(CountIn(snapshotWins, true), |snapshotWins|);
    }

    /** Turning learning on starts over with an empty table and a fresh
        board; turning it off zeroes the decayed parameters. */
    method SetLearning(value: bool)
      requires Steady()
      modifies this, env, agent`position
      ensures Valid() && learning == value
      ensures value ==> fresh(qTable) && qTable.table == map[] && episodeCount == 0 && turnCount == 0 && outcomes == []
      ensures value ==> FreshBoard(env, agent) && env.width == old(env.width) && env.height == old(env.height)
      ensures value ==> env.breakableWallPattern == old(env.breakableWallPattern)
      ensures agent.currentBombTimer == old(agent.currentBombTimer)
      ensures value ==> decayedEpsilon == old(decayedEpsilon) && decayedAlpha == old(decayedAlpha)
      ensures !value ==> decayedEpsilon == 0.0 && decayedAlpha == 0.0
      ensures !value ==> qTable == old(qTable) && unchanged(env, agent) && episodeCount == old(episodeCount)
      ensures !value ==> turnCount == old(turnCount) && outcomes == old(outcomes) && agentState == old(agentState)
    {
      if value {
        Initialize();
        learning := true;
      } else {
        StopLearning();
      }
    }

    /** Learning off, with the decayed parameters zeroed. */
    method StopLearning()
      modifies this`learning, this`decayedEpsilon, this`decayedAlpha
      ensures !learning && decayedEpsilon == 0.0 && decayedAlpha == 0.0
    {
      decayedEpsilon, decayedAlpha := 0.0, 0.0;
      learning := false;
    }

    /** Regenerates the board and puts the agent on its spawn cell; the
        cooldown is kept. */
    method NewBoard()
      requires env.Valid() && agent.Valid() && env.width >= 1 && env.height >= 1
      modifies env, agent`position
      ensures Playable(env, agent) && FreshBoard(env, agent)
      ensures env.width == old(env.width) && env.height == old(env.height)
      ensures env.breakableWallPattern == old(env.breakableWallPattern) && agent.currentBombTimer == old(agent.currentBombTimer)
    {
      var spawn := env.GenerateEnvironment();
      agent.position := spawn;
      ZeroTimersTracked(env.width, env.height, agent.currentBombTimer);
    }

    /** Records the agent's view of the live board as the current state. */
    method ObserveBoard()
      requires env.Valid()
      modifies this`agentState
      ensures agentState == Observe(agent.position, env.Tiles(), env.Timers())
    {
      agentState := agent.GetCurrentState(env);
    }

    /** A started trainer right after a turn: the invariant, except that the
        turn just counted may be one past the budget. */
    ghost predicate Turned()
      reads this, env, env.tileGrid, env.bombTimerGrid, agent, qTable
    {
      Playable(env, agent) && qTable != null && qTable.Valid()
      && agentState == Observe(agent.position, env.Tiles(), env.Timers())
      && Records() && maximumEpisodeCount > 0 && 1 <= turnCount <= Max(0, maximumTurnsPerEpisode) + 1
      && (learning ==> episodeCount <= maximumEpisodeCount)
    }

    /** The invariant, from its parts. */
    lemma SteadyIntro()
      requires Playable(env, agent) && Records() && maximumEpisodeCount > 0
      requires turnCount <= Max(0, maximumTurnsPerEpisode)
      requires qTable != null && qTable.Valid() && agentState == Observe(agent.position, env.Tiles(), env.Timers())
      ensures Steady()
    {
    }

    /** The start of an episode: a fresh board with the agent at its spawn
        cell, no turn taken yet, and the agent's view of it as the current state. */
    method NewEpisode()
      requires env.Valid() && agent.Valid() && env.width >= 1 && env.height >= 1
      modifies env, agent`position, this`agentState, this`turnCount
      ensures Playable(env, agent) && agentState == Observe(agent.position, env.Tiles(), env.Timers())
      ensures turnCount == 0 && FreshBoard(env, agent)
      ensures env.width == old(env.width) && env.height == old(env.height)
      ensures env.breakableWallPattern == old(env.breakableWallPattern) && agent.currentBombTimer == old(agent.currentBombTimer)
    {
      NewBoard();
      turnCount := 0;
      ObserveBoard();
    }

    /** A new learning attempt: an empty table, a fresh board with the agent
        at its spawn cell, all counters and rates reset. The cooldown is kept. */
    method Initialize()
      requires env.Valid() && agent.Valid() && env.width >= 1 && env.height >= 1 && maximumEpisodeCount > 0
      modifies this, env, agent`position
      ensures Steady() && fresh(qTable) && qTable.table == map[]
      ensures episodeCount == 0 && turnCount == 0 && outcomes == []
      ensures learning == old(learning) && decayedEpsilon == old(decayedEpsilon) && decayedAlpha == old(decayedAlpha)
      ensures FreshBoard(env, agent)
      ensures env.width == old(env.width) && env.height == old(env.height)
      ensures env.breakableWallPattern == old(env.breakableWallPattern) && agent.currentBombTimer == old(agent.currentBombTimer)
    {
      Clear();
      NewEpisode();
      SteadyIntro();
    }

    /** An empty table and cleared records. */
    method Clear()
      modifies this`qTable, this`episodeCount, this`winCount, this`overallWinRate,
               this`snapshotWinRate, this`snapshotWins, this`outcomes
      ensures fresh(qTable) && qTable.Valid() && qTable.table == map[]
      ensures Records() && episodeCount == 0 && outcomes == []
    {
      qTable := new QTable();
      ResetRecords();
    }

    /** Clears the episode counters, the win rates and the outcome queue. */
    method ResetRecords()
      modifies this`episodeCount, this`winCount, this`overallWinRate, this`snapshotWinRate, this`snapshotWins, this`outcomes
      ensures Records() && episodeCount == 0 && winCount == 0 && outcomes == [] && snapshotWins == []
      ensures overallWinRate == 0.0 && snapshotWinRate == 0.0
    {
      episodeCount, winCount := 0, 0;
      overallWinRate, snapshotWinRate := 0.0, 0.0;
      snapshotWins, outcomes := [], [];
    }

    /** A new episode on a fresh board; learning stops once the episode
        budget is exceeded. */
    method Restart()
      requires qTable != null && qTable.Valid() && Records() && maximumEpisodeCount > 0
      requires env.Valid() && agent.Valid() && env.width >= 1 && env.height >= 1
      modifies this, env, agent`position
      ensures Valid() && qTable == old(qTable) && turnCount == 0 && FreshBoard(env, agent)
      ensures env.width == old(env.width) && env.height == old(env.height)
      ensures env.breakableWallPattern == old(env.breakableWallPattern) && agent.currentBombTimer == old(agent.currentBombTimer)
      ensures episodeCount == old(episodeCount) && winCount == old(winCount) && outcomes == old(outcomes)
      ensures learning == (old(learning) && episodeCount <= maximumEpisodeCount)
      ensures learning ==> decayedEpsilon == old(decayedEpsilon) && decayedAlpha == old(decayedAlpha)
      ensures !learning ==> (decayedEpsilon == 0.0 && decayedAlpha == 0.0)
                            || (decayedEpsilon == old(decayedEpsilon) && decayedAlpha == old(decayedAlpha) && !old(learning))
    {
      NewEpisode();
      SteadyIntro();
      if episodeCount > maximumEpisodeCount {
        StopLearning();
      }
    }

    /** The exploration rate and learning rate for this step. */
    method DecayParameters()
      requires maximumEpisodeCount > 0
      modifies this`decayedEpsilon, this`decayedAlpha
      ensures decayedEpsilon == Decayed(epsilon, learning, parameterDecay, episodeCount, maximumEpisodeCount)
      ensures decayedAlpha == Decayed(alpha, learning, parameterDecay, episodeCount, maximumEpisodeCount)
    {
      if learning {
        if parameterDecay {
          var progress := Clamp01(episodeCount as real / maximumEpisodeCount as real);
          decayedEpsilon := Lerp(epsilon, DecayFloor, progress);
          decayedAlpha := Lerp(alpha, DecayFloor, progress);
        } else {
          decayedEpsilon, decayedAlpha := epsilon, alpha;
        }
      } else {
        decayedEpsilon, decayedAlpha := 0.0, 0.0;
      }
    }

    /** The agent takes a legal action: the board, the timers, the agent's
        cell and cooldown become those of one turn, the wall counter loses
        exactly the `broken` walls the bombs destroyed, and the reward is
        scored against the state observed once the old explosions are
        cleared. The board stays playable. */
    method Step(action: AgentAction) returns (next: AgentState, reward: real, ghost broken: nat)
      requires Playable(env, agent) && action in LegalActions(env.Tiles(), agent.position, agent.currentBombTimer)
      modifies agent`position, agent`currentBombTimer, env`breakableWallCount, env.tileGrid, env.bombTimerGrid
      ensures Playable(env, agent)
      ensures env.Tiles() == TurnTiles(old(env.Tiles()), old(env.Timers()), old(agent.position), action)
      ensures env.Timers() == TurnTimers(old(env.Timers()), old(agent.position), action, agent.bombTimer)
      ensures agent.position == TurnPosition(old(agent.position), action)
      ensures agent.currentBombTimer == TurnCooldown(old(agent.currentBombTimer), action, agent.bombTimer)
      ensures broken == WallsBroken(old(env.Tiles()), old(env.Timers()))
      ensures env.breakableWallCount == old(env.breakableWallCount) - broken
      ensures next == Observe(agent.position, env.Tiles(), env.Timers())
      ensures reward == TurnReward(rewards, old(env.Tiles()), old(env.Timers()), old(agent.position), action, broken, agent.bombTimer)
    {
      ghost var g, t, counter, p, cooldown := env.Tiles(), env.Timers(), env.breakableWallCount, agent.position, agent.currentBombTimer;
      TurnConsistent(g, t, counter, p, cooldown, agent.bombTimer, action, env.width, env.height);
      next, reward, broken := agent.TakeAction(env, action, rewards);
      TurnPlayable(env, agent, g, t, counter, p, cooldown, action);
    }

    /** The Q-value update for the action taken from the current state,
        after which the next state becomes the current one and the turn is counted. */
    method LearnAndMove(qValues: seq<real>, action: AgentAction, reward: real, next: AgentState)
      requires qTable != null && qTable.Valid() && |qValues| == ActionCount
      modifies qTable, this`agentState, this`turnCount
      ensures qTable.Valid() && agentState == next && turnCount == old(turnCount) + 1
      ensures qTable.table == Stored(Fetched(old(qTable.table), next), old(agentState), action,
                                     Bellman(qValues[Ordinal(action)], decayedAlpha, reward, discountFactor,
                                             MaxOf(Fetched(old(qTable.table), next)[next])))
    {
      var oldQValue := qValues[Ordinal(action)];
      var nextValues := qTable.GetQValues(next);
      var nextMaxQValue := MaxOf(nextValues);
      var newQValue := Bellman(oldQValue, decayedAlpha, reward, discountFactor, nextMaxQValue);
      qTable.SetQValue(agentState, action, newQValue);
      agentState := next;
      turnCount := turnCount + 1;
    }

    /** The epsilon-greedy choice among the legal actions: below the decayed
        epsilon the roll explores with the random pick, otherwise the greedy
        action of the current state's values is taken. */
    method ChooseAction(roll: real, pick: nat) returns (action: AgentAction, qValues: seq<real>)
      requires env.Valid() && qTable != null && qTable.Valid()
      modifies qTable
      ensures qTable.Valid() && qTable.table == Fetched(old(qTable.table), agentState)
      ensures qValues == qTable.table[agentState] && |qValues| == ActionCount
      ensures action in LegalActions(env.Tiles(), agent.position, agent.currentBombTimer)
      ensures EpsilonGreedy(roll, pick, decayedEpsilon, qValues,
                            LegalActions(env.Tiles(), agent.position, agent.currentBombTimer), action)
    {
      var legal := agent.GetLegalActions(env);
      LegalActionsSpec(env.Tiles(), agent.position, agent.currentBombTimer);
      qValues := qTable.GetQValues(agentState);
      var index := ChooseIndex(roll, pick, decayedEpsilon, qValues, legal);
      action := legal[index];
    }

    /** One turn of learning with the decayed parameters: an action is
        chosen among the legal ones (`ChooseAction`), taken and learnt from
        (`StepAndLearn`); the turn breaks `broken` walls and earns `reward`.
        With a zero learning rate the known Q-values stay as they are. */
    method Act(roll: real, pick: nat) returns (reward: real, ghost action: AgentAction, ghost broken: nat)
      requires Playable(env, agent)
      requires qTable != null && qTable.Valid() && agentState == Observe(agent.position, env.Tiles(), env.Timers())
      modifies this`agentState, this`turnCount, qTable
      modifies agent`position, agent`currentBombTimer, env`breakableWallCount, env.tileGrid, env.bombTimerGrid
      ensures Playable(env, agent) && qTable.Valid() && agentState == Observe(agent.position, env.Tiles(), env.Timers())
      ensures turnCount == old(turnCount) + 1 && old(qTable.table).Keys <= qTable.table.Keys
      ensures action in LegalActions(old(env.Tiles()), old(agent.position), old(agent.currentBombTimer))
      ensures broken == WallsBroken(old(env.Tiles()), old(env.Timers()))
      ensures env.breakableWallCount == old(env.breakableWallCount) - broken
      ensures decayedAlpha == 0.0 ==> forall s :: s in old(qTable.table) ==> qTable.table[s] == old(qTable.table)[s]
    {
      ghost var t0, s := qTable.table, agentState;
      var chosen, qValues := ChooseAction(roll, pick);
      action := chosen;
      reward, broken := StepAndLearn(chosen, qValues);
      if decayedAlpha == 0.0 {
        FrozenUpdate(t0, s, agentState, chosen, reward, discountFactor);
      }
    }

    /** The rest of a turn of learning once `action` is chosen with the
        current state's values `qValues`: the action is taken, its Q-value is
        updated, and the agent moves on to the state it observes. */
    method StepAndLearn(action: AgentAction, qValues: seq<real>) returns (reward: real, ghost broken: nat)
      requires Playable(env, agent) && action in LegalActions(env.Tiles(), agent.position, agent.currentBombTimer)
      requires qTable != null && qTable.Valid() && |qValues| == ActionCount
      modifies this`agentState, this`turnCount, qTable
      modifies agent`position, agent`currentBombTimer, env`breakableWallCount, env.tileGrid, env.bombTimerGrid
      ensures Playable(env, agent) && qTable.Valid() && agentState == Observe(agent.position, env.Tiles(), env.Timers())
      ensures turnCount == old(turnCount) + 1
      ensures env.Tiles() == TurnTiles(old(env.Tiles()), old(env.Timers()), old(agent.position), action)
      ensures env.Timers() == TurnTimers(old(env.Timers()), old(agent.position), action, agent.bombTimer)
      ensures agent.position == TurnPosition(old(agent.position), action)
      ensures agent.currentBombTimer == TurnCooldown(old(agent.currentBombTimer), action, agent.bombTimer)
      ensures env.breakableWallCount == old(env.breakableWallCount) - broken
      ensures broken == WallsBroken(old(env.Tiles()), old(env.Timers()))
      ensures reward == TurnReward(rewards, old(env.Tiles()), old(env.Timers()), old(agent.position), action, broken, agent.bombTimer)
      ensures qTable.table == Stored(Fetched(old(qTable.table), agentState), old(agentState), action,
                                     Bellman(qValues[Ordinal(action)], decayedAlpha, reward, discountFactor,
                                             MaxOf(Fetched(old(qTable.table), agentState)[agentState])))
    {
      var next;
      next, reward, broken := Step(action);
      ghost var g, t := env.Tiles(), env.Timers();
      LearnAndMove(qValues, action, reward, next);
      assert env.Tiles() == g && env.Timers() == t;
    }

    /** Records the outcome of the finished episode and starts the next one. */
    method EndEpisode()
      requires qTable != null && qTable.Valid() && Records() && maximumEpisodeCount > 0
      requires env.Valid() && agent.Valid() && env.width >= 1 && env.height >= 1
      modifies this, env, agent`position
      ensures Valid() && qTable == old(qTable)
      ensures outcomes == old(outcomes) + [old(env.breakableWallCount) == 0]
      ensures episodeCount == old(episodeCount) + 1 && turnCount == 0 && FreshBoard(env, agent)
      ensures env.width == old(env.width) && env.height == old(env.height)
      ensures env.breakableWallPattern == old(env.breakableWallPattern) && agent.currentBombTimer == old(agent.currentBombTimer)
      ensures learning == (old(learning) && episodeCount <= maximumEpisodeCount)
      ensures learning ==> decayedEpsilon == old(decayedEpsilon) && decayedAlpha == old(decayedAlpha)
      ensures !learning ==> (decayedEpsilon == 0.0 && decayedAlpha == 0.0)
                            || (decayedEpsilon == old(decayedEpsilon) && decayedAlpha == old(decayedAlpha) && !old(learning))
    {
      RecordOutcome(env.breakableWallCount == 0);
      Restart();
    }

    /** Counts a finished episode: the win count, the recent-outcome queue
        and both win rates follow the outcome. */
    method RecordOutcome(win: bool)
      requires Records()
      modifies this`episodeCount, this`winCount, this`overallWinRate, this`snapshotWinRate, this`snapshotWins, this`outcomes
      ensures Records() && outcomes == old(outcomes) + [win] && episodeCount == old(episodeCount) + 1
    {
      RecordedOutcome(outcomes, win, winCount, snapshotWins);
      if win {
        winCount := winCount + 1;
      }
      if |snapshotWins| == SnapshotSize {
        snapshotWins := snapshotWins[1..];
      }
      snapshotWins := snapshotWins + [win];
      outcomes := outcomes + [win];
      episodeCount := episodeCount + 1;
      overallWinRate := winCount as real / episodeCount as real;
      var shown := Min(episodeCount, SnapshotSize);
      snapshotWinRate := CountIn(snapshotWins, true) as real / shown as real;
    }

    /** One step of the learning loop: with a table, the parameters are
        decayed and one turn of learning is played. `roll` is the uniform
        draw and `pick` the random legal index; `action`, `broken` and
        `reward` are the turn's action, broken walls and reward, for the
        contract only. */
    method FixedUpdate(roll: real, pick: nat) returns (ghost action: AgentAction, ghost broken: nat, ghost reward: real)
      requires Valid()
      modifies this, env, env.tileGrid, env.bombTimerGrid, agent`position, agent`currentBombTimer, qTable
      ensures Valid() && qTable == old(qTable)
      ensures old(qTable) == null ==> unchanged(this, env, agent)
      ensures old(qTable) != null ==> old(qTable.table).Keys <= qTable.table.Keys
      ensures old(qTable) != null && !old(learning) ==>
        forall s :: s in old(qTable.table) ==> qTable.table[s] == old(qTable.table)[s]
      ensures old(qTable) != null && learning ==>
        decayedEpsilon == Decayed(epsilon, learning, parameterDecay, old(episodeCount), maximumEpisodeCount)
        && decayedAlpha == Decayed(alpha, learning, parameterDecay, old(episodeCount), maximumEpisodeCount)
      ensures old(qTable) != null && !learning ==> decayedEpsilon == 0.0 && decayedAlpha == 0.0
      ensures !old(learning) ==> !learning
      ensures old(qTable) != null ==> TurnPlayed(old(env.Tiles()), old(env.Timers()), old(agent.position),
        old(agent.currentBombTimer), old(env.breakableWallCount), old(turnCount), old(outcomes), action, broken, reward)
    {
      action, broken, reward := None, 0, 0.0;
      if qTable == null {
        return;
      }
      DecayParameters();
      action, broken, reward := LearnTurn(roll, pick);
    }

    /** What a turn of the learning loop promises about the trainer's episode
        bookkeeping, from the tiles `g`, timers `t`, agent cell `p`, cooldown,
        wall counter and turn count before it and the outcomes so far: the
        legal `action` taken breaks `broken` walls; with `reward` the reward
        the turn earned (its value is stated by `StepAndLearn`), the episode
        ends exactly when the agent died, no breakable wall is left or the
        turn budget is exceeded, and then the outcome is recorded and a fresh
        board generated; otherwise the turn is counted. */
    ghost predicate TurnPlayed(g: seq<seq<TileType>>, t: seq<seq<nat>>, p: Vec2, cooldown: nat, walls: int,
                               turns: nat, history: seq<bool>, action: AgentAction, broken: nat, reward: real)
      reads this, env, env.tileGrid, env.bombTimerGrid, agent
    {
      action in LegalActions(g, p, cooldown) && broken == WallsBroken(g, t)
      && EpisodeClosed(walls - broken, turns + 1, history, reward)
    }

    /** How a turn that earned `reward` closes, from the wall counter and the
        turn count after it and the outcomes before it: when the agent died,
        no breakable wall is left or the turn budget is exceeded, the outcome
        is recorded, the turn count restarts and the board is fresh; otherwise
        nothing changes. */
    ghost predicate EpisodeClosed(walls: int, turns: nat, history: seq<bool>, reward: real)
      reads this, env, env.tileGrid, env.bombTimerGrid, agent
    {
      var over := EpisodeOver(reward, rewards.death, walls, turns, maximumTurnsPerEpisode);
      (over ==> outcomes == history + [walls == 0] && turnCount == 0 && FreshBoard(env, agent))
      && (!over ==> outcomes == history && turnCount == turns && env.breakableWallCount == walls)
    }

    /** One turn of the learning loop with the decayed parameters already
        set: a turn of learning, then the end of the episode when it is over. */
    method LearnTurn(roll: real, pick: nat) returns (ghost action: AgentAction, ghost broken: nat, ghost reward: real)
      requires Valid() && qTable != null
      modifies this, env, env.tileGrid, env.bombTimerGrid, agent`position, agent`currentBombTimer, qTable
      ensures Valid() && qTable == old(qTable) && old(qTable.table).Keys <= qTable.table.Keys
      ensures old(decayedAlpha) == 0.0 ==> forall s :: s in old(qTable.table) ==> qTable.table[s] == old(qTable.table)[s]
      ensures (learning == old(learning) && decayedEpsilon == old(decayedEpsilon) && decayedAlpha == old(decayedAlpha))
              || (!learning && decayedEpsilon == 0.0 && decayedAlpha == 0.0)
      ensures TurnPlayed(old(env.Tiles()), old(env.Timers()), old(agent.position), old(agent.currentBombTimer),
                         old(env.breakableWallCount), old(turnCount), old(outcomes), action, broken, reward)
    {
      ghost var e0, a0, l0, h0 := decayedEpsilon, decayedAlpha, learning, outcomes;
      ghost var w0, n0 := env.breakableWallCount, turnCount;
      ghost var ep0, wins0, rate0, recent0, recentRate0 := episodeCount, winCount, overallWinRate, snapshotWins, snapshotWinRate;
      var turnReward;
      turnReward, action, broken := Act(roll, pick);
      assert decayedEpsilon == e0 && decayedAlpha == a0 && learning == l0 && outcomes == h0;
      assert episodeCount == ep0 && winCount == wins0 && overallWinRate == rate0 && snapshotWins == recent0 && snapshotWinRate == recentRate0;
      assert env.breakableWallCount == w0 - broken && turnCount == n0 + 1;
      reward := turnReward;
      FinishTurn(turnReward);
    }

    /** After a turn that earned `reward`: the episode ends when the agent
        died, no breakable wall is left or the turn budget is exceeded. */
    method FinishTurn(reward: real)
      requires Turned()
      modifies this, env, agent`position
      ensures Valid() && qTable == old(qTable) && qTable.table == old(qTable.table)
      ensures (learning == old(learning) && decayedEpsilon == old(decayedEpsilon) && decayedAlpha == old(decayedAlpha))
              || (!learning && decayedEpsilon == 0.0 && decayedAlpha == 0.0)
      ensures episodeCount == old(episodeCount) + 1
          <==> EpisodeOver(reward, rewards.death, old(env.breakableWallCount), old(turnCount), maximumTurnsPerEpisode)
      ensures episodeCount == old(episodeCount) + 1 ==>
        outcomes == old(outcomes) + [old(env.breakableWallCount) == 0] && turnCount == 0 && FreshBoard(env, agent)
        && env.width == old(env.width) && env.height == old(env.height)
        && env.breakableWallPattern == old(env.breakableWallPattern) && agent.currentBombTimer == old(agent.currentBombTimer)
      ensures episodeCount != old(episodeCount) + 1 ==> unchanged(this, env, agent)
      ensures EpisodeClosed(old(env.breakableWallCount), old(turnCount), old(outcomes), reward)
    {
      if EpisodeOver(reward, rewards.death, env.breakableWallCount, turnCount, maximumTurnsPerEpisode) {
        EndEpisode();
      } else {
        SteadyIntro();
      }
    }
  }
}
