/** The transport engine: the registry built from the input matrices, the live
    agent (position, hand, action log), the feasibility simulator, the greedy
    trip planner and the executor that carries each committed plan out. */
module Transport {
  import opened Physics
  import opened Registry
  import opened Tokens
  import opened Greedy

  /** No two boxes share a cell. */
  predicate Separate(bs: seq<Box>)
  {
    forall a, b :: 0 <= a < |bs| && 0 <= b < |bs| && a != b ==> bs[a].r != bs[b].r || bs[a].c != bs[b].c
  }

  /** Every box lies on the n x n grid. */
  predicate OnGrid(bs: seq<Box>, n: int)
  {
    forall k :: 0 <= k < |bs| ==> 0 <= bs[k].r < n && 0 <= bs[k].c < n
  }

  /** Wear keeps the layout facts of Solver.Valid. */
  lemma LayoutKeeps(b0: seq<Box>, b1: seq<Box>, hand: seq<int>, n: int)
    requires SameLayout(b0, b1) && OnGrid(b0, n) && Separate(b0) && ValidIds(b0, hand)
    ensures OnGrid(b1, n) && Separate(b1) && ValidIds(b1, hand)
  {
  }

  /** The input matrices are n x n. */
  predicate Square(ws: seq<seq<int>>, ds: seq<seq<int>>, n: int)
  {
    0 <= n && |ws| == n && |ds| == n && forall i :: 0 <= i < n ==> |ws[i]| == n && |ds[i]| == n
  }

  /** Box k is what the registry makes of its cell, a cell before (i, j) in
      row-major order: id k, the cell's weight (positive) and durability. */
  predicate Made(ws: seq<seq<int>>, ds: seq<seq<int>>, n: int, b: Box, k: int, i: int, j: int)
    requires Square(ws, ds, n)
  {
    b.id == k && 0 <= b.r < n && 0 <= b.c < n && Before(b.r, b.c, i, j) &&
    IdAt(ws, b.r, b.c) == k && b.w == ws[b.r][b.c] > 0 &&
    b.dInitial == ds[b.r][b.c] && b.dCurrent == b.dInitial
  }

  /** The registry after scanning the cells before (i, j). */
  predicate Registered(ws: seq<seq<int>>, ds: seq<seq<int>>, n: int, bs: seq<Box>, i: int, j: int)
    requires Square(ws, ds, n)
  {
    forall k :: 0 <= k < |bs| ==> Made(ws, ds, n, bs[k], k, i, j)
  }

  /** Scanning a cell with a box appends that box with the next id. */
  lemma RegisterBox(ws: seq<seq<int>>, ds: seq<seq<int>>, n: int, bs: seq<Box>, i: nat, j: nat)
    requires Square(ws, ds, n) && i < n && j < n && ws[i][j] > 0
    requires Registered(ws, ds, n, bs, i, j) && |bs| == RowsCount(ws, i) + RowCount(ws[i], j)
    ensures Registered(ws, ds, n, bs + [Box(|bs|, i, j, ws[i][j], ds[i][j], ds[i][j])], i, j + 1)
  {
    var bs' := bs + [Box(|bs|, i, j, ws[i][j], ds[i][j], ds[i][j])];
    forall k | 0 <= k < |bs'| ensures Made(ws, ds, n, bs'[k], k, i, j + 1) {
      if k < |bs| {
        assert bs'[k] == bs[k] && Made(ws, ds, n, bs[k], k, i, j);
      }
    }
  }

  /** Scanning a cell without a box appends nothing. */
  lemma RegisterNone(ws: seq<seq<int>>, ds: seq<seq<int>>, n: int, bs: seq<Box>, i: int, j: int)
    requires Square(ws, ds, n) && Registered(ws, ds, n, bs, i, j)
    ensures Registered(ws, ds, n, bs, i, j + 1)
  {
    forall k | 0 <= k < |bs| ensures Made(ws, ds, n, bs[k], k, i, j + 1) {
      assert Made(ws, ds, n, bs[k], k, i, j);
    }
  }

  /** The end of a row is the start of the next. */
  lemma RegisterRow(ws: seq<seq<int>>, ds: seq<seq<int>>, n: int, bs: seq<Box>, i: int)
    requires Square(ws, ds, n) && Registered(ws, ds, n, bs, i, n)
    ensures Registered(ws, ds, n, bs, i + 1, 0)
  {
    forall k | 0 <= k < |bs| ensures Made(ws, ds, n, bs[k], k, i + 1, 0) {
      assert Made(ws, ds, n, bs[k], k, i, n);
    }
  }

  /** A finished registry is well formed, on the grid, one box per cell. */
  lemma RegisterDone(ws: seq<seq<int>>, ds: seq<seq<int>>, n: int, bs: seq<Box>)
    requires Square(ws, ds, n) && Registered(ws, ds, n, bs, n, 0)
    ensures WellFormed(bs) && OnGrid(bs, n) && Separate(bs)
    ensures forall k :: 0 <= k < |bs| ==>
      IdAt(ws, bs[k].r, bs[k].c) == k && bs[k].w == ws[bs[k].r][bs[k].c] &&
      bs[k].dInitial == ds[bs[k].r][bs[k].c] && bs[k].dCurrent == bs[k].dInitial
  {
    forall k | 0 <= k < |bs| ensures Made(ws, ds, n, bs[k], k, n, 0) {
    }
  }

  /** The cells of the boxes of the id set S. */
  function Cells(bs: seq<Box>, S: set<int>): (cells: set<(int, int)>)
  {
    set k | k in S && 0 <= k < |bs| :: (bs[k].r, bs[k].c)
  }

  lemma CellsAdd(bs: seq<Box>, S: set<int>, x: int)
    requires 0 <= x < |bs|
    ensures Cells(bs, S + {x}) == Cells(bs, S) + {(bs[x].r, bs[x].c)}
  {
    assert (bs[x].r, bs[x].c) in Cells(bs, S + {x}) by {
      assert x in S + {x};
    }
  }

  lemma CellsUnion(bs: seq<Box>, S: set<int>, T: set<int>)
    ensures Cells(bs, S + T) == Cells(bs, S) + Cells(bs, T)
  {
  }

  lemma CellsLayout(b1: seq<Box>, b2: seq<Box>, S: set<int>)
    requires SameLayout(b1, b2)
    ensures Cells(b1, S) == Cells(b2, S)
  {
    forall p | p in Cells(b1, S)
      ensures p in Cells(b2, S)
    {
      var k :| k in S && 0 <= k < |b1| && p == (b1[k].r, b1[k].c);
      assert p == (b2[k].r, b2[k].c);
    }
    forall p | p in Cells(b2, S)
      ensures p in Cells(b1, S)
    {
      var k :| k in S && 0 <= k < |b2| && p == (b2[k].r, b2[k].c);
      assert p == (b1[k].r, b1[k].c);
    }
  }

  /** The boxes hand[lo..] are intact. */
  predicate AliveFrom(bs: seq<Box>, hand: seq<int>, lo: int)
    requires ValidIds(bs, hand)
  {
    forall k :: lo <= k < |hand| && 0 <= k ==> bs[hand[k]].dCurrent > 0
  }

  /** How far a top-down wear pass over `hand` has got: the boxes above
      position i are done and carry their final durabilities, `above` is the
      weight resting on hand[i], and finishing the pass from `live` gives the
      whole pass from `bs`. */
  ghost predicate PassedDown(bs: seq<Box>, hand: seq<int>, dist: int, live: seq<Box>, i: int, above: int)
  {
    -1 <= i < |hand| && |live| == |bs| && ValidIds(bs, hand) && Distinct(hand) &&
    Pass(bs, hand, dist) == PassFrom(live, hand, i + 1, above, dist) &&
    forall k :: i < k < |hand| ==> Pass(bs, hand, dist)[hand[k]] == live[hand[k]]
  }

  /** Wearing hand[i] by `above * dist` moves the pass one box down. */
  lemma PassDownStep(bs: seq<Box>, hand: seq<int>, dist: int, live: seq<Box>, i: int, above: int)
    requires PassedDown(bs, hand, dist, live, i, above) && i >= 0
    ensures var id := hand[i];
      var live' := live[id := live[id].(dCurrent := live[id].dCurrent - above * dist)];
      PassedDown(bs, hand, dist, live', i - 1, above + live[id].w) &&
      (AliveFrom(live', hand, i) <==> AliveFrom(live, hand, i + 1) && live'[id].dCurrent > 0)
  {
    var id := hand[i];
    var live' := live[id := live[id].(dCurrent := live[id].dCurrent - above * dist)];
    forall k | i <= k < |hand|
      ensures Pass(bs, hand, dist)[hand[k]] == live'[hand[k]]
    {
      if k > i {
        assert hand[k] != id;
      }
      PassFromFrame(live', hand, i, above + live[id].w, dist, hand[k]);
    }
    forall k | i < k < |hand|
      ensures live'[hand[k]] == live[hand[k]]
    {
      assert hand[k] != id;
    }
  }

  /** A finished pass: the live store is the outcome of the whole pass. */
  lemma PassDownDone(bs: seq<Box>, hand: seq<int>, dist: int, live: seq<Box>, above: int)
    requires PassedDown(bs, hand, dist, live, -1, above)
    ensures live == Pass(bs, hand, dist)
    ensures AliveFrom(live, hand, 0) == AllAlive(Pass(bs, hand, dist), hand)
  {
  }

  /** One leg of the simulator's loop, towards plan[p] from (r, c): the outcome
      is None when the leg crushes a held box, and the outcome of the rest of
      the plan after the pickup otherwise. */
  lemma SimulateLeg(sim: seq<Box>, hand: seq<int>, r: int, c: int, plan: seq<int>, p: nat)
    requires ValidIds(sim, hand) && ValidIds(sim, plan) && p < |plan|
    ensures var b := sim[plan[p]];
      var after := Pass(sim, hand, Dist(b.r, b.c, r, c));
      Simulate(sim, hand, r, c, plan[p..]) ==
        if AllAlive(after, hand) then Simulate(after, hand + [plan[p]], b.r, b.c, plan[p + 1..]) else None
  {
    assert plan[p..][0] == plan[p] && plan[p..][1..] == plan[p + 1..];
    var b := sim[plan[p]];
    assert Dist(b.r, b.c, r, c) == Dist(r, c, b.r, b.c);
  }

  /** The simulator's last leg, home from (r, c) once the whole plan is held. */
  lemma SimulateHome(sim: seq<Box>, plan: seq<int>, r: int, c: int)
    requires ValidIds(sim, plan)
    ensures var after := Pass(sim, plan, Dist(0, 0, r, c));
      Simulate(sim, plan, r, c, plan[|plan|..]) == if AllAlive(after, plan) then Some(after) else None
  {
    assert plan[|plan|..] == [];
    assert Dist(0, 0, r, c) == Dist(r, c, 0, 0);
  }

  /** One wear pass of the simulator over its private copy `sim` of the boxes
      (Main.java:274-289 and 298-309): top down, each held box loses the weight
      above it times `dist`, and the pass gives up at the first box crushed. */
  method SimulatedPass(sim: seq<Box>, hand: seq<int>, dist: int) returns (after: seq<Box>, alive: bool)
    requires ValidIds(sim, hand) && Distinct(hand)
    ensures alive == AllAlive(Pass(sim, hand, dist), hand)
    ensures alive ==> after == Pass(sim, hand, dist)
  {
    after := sim;
    var weightOnTop := 0;
    var i := |hand| - 1;
    while i >= 0
      invariant PassedDown(sim, hand, dist, after, i, weightOnTop)
      invariant AliveFrom(after, hand, i + 1)
    {
      var id := hand[i];
      PassDownStep(sim, hand, dist, after, i, weightOnTop);
      weightOnTop, after := weightOnTop + after[id].w,
        after[id := after[id].(dCurrent := after[id].dCurrent - weightOnTop * dist)];
      if after[id].dCurrent <= 0 {
        return after, false;
      }
      i := i - 1;
    }
    PassDownDone(sim, hand, dist, after, weightOnTop);
    return after, true;
  }

  /** How far the executor has got through `plan`, started from the store b0 at
      the origin with an empty hand: the boxes of `hand` are picked and `rest`
      is still due, `cells` are the cells of the picked boxes, the live store
      differs from b0 in durabilities only, the simulator's outcome of the plan
      is the outcome of `rest` from here, and `trip` is the log so far followed
      by the tokens still due. */
  ghost predicate Progress(b0: seq<Box>, plan: seq<int>, rest: seq<int>, bs: seq<Box>, hand: seq<int>,
                           r: int, c: int, log: seq<Token>, trip: seq<Token>, cells: set<(int, int)>)
  {
    Split(b0, plan, rest, bs, hand) && cells == Cells(b0, Elems(hand)) &&
    SimulatedSoFar(b0, plan, rest, bs, hand, r, c) && trip == log + TripTokens(b0, r, c, rest)
  }

  /** `plan` is `hand` followed by `rest`, over stores of one layout. */
  predicate Split(b0: seq<Box>, plan: seq<int>, rest: seq<int>, bs: seq<Box>, hand: seq<int>)
  {
    hand + rest == plan && SameLayout(b0, bs) && ValidIds(bs, hand) && ValidIds(bs, rest) &&
    ValidIds(b0, plan) && ValidIds(b0, rest)
  }

  /** The simulator's outcome of the whole plan is the outcome of `rest` from here. */
  ghost predicate SimulatedSoFar(b0: seq<Box>, plan: seq<int>, rest: seq<int>, bs: seq<Box>, hand: seq<int>, r: int, c: int)
    requires Split(b0, plan, rest, bs, hand)
  {
    Simulate(b0, [], 0, 0, plan) == Simulate(bs, hand, r, c, rest) &&
    Simulate(bs, hand, r, c, rest).Some?
  }

  /** The next box of a duplicate-free plan is not on the hand yet. */
  lemma ProgressNext(b0: seq<Box>, plan: seq<int>, rest: seq<int>, bs: seq<Box>, hand: seq<int>,
                     r: int, c: int, log: seq<Token>, trip: seq<Token>, cells: set<(int, int)>)
    requires Progress(b0, plan, rest, bs, hand, r, c, log, trip, cells) && rest != [] && Distinct(plan)
    ensures 0 <= rest[0] < |bs| && rest[0] !in hand
  {
    assert plan[|hand|] == rest[0];
    forall k | 0 <= k < |hand| ensures hand[k] != rest[0] {
      assert plan[k] == hand[k];
    }
  }

  /** Walking from (r, c) to the next box (r', c') of a feasible plan crushes
      nothing, and after its pickup the executor has got one box further. */
  lemma ProgressStep(b0: seq<Box>, plan: seq<int>, rest: seq<int>, bs: seq<Box>, hand: seq<int>,
                     r: int, c: int, log: seq<Token>, trip: seq<Token>, cells: set<(int, int)>,
                     bs': seq<Box>, hand': seq<int>, r': int, c': int, log': seq<Token>, cells': set<(int, int)>)
    requires Progress(b0, plan, rest, bs, hand, r, c, log, trip, cells) && rest != []
    requires r' == bs[rest[0]].r && c' == bs[rest[0]].c
    requires bs' == Pass(bs, hand, Dist(r, c, r', c')) && hand' == hand + [rest[0]]
    requires log' == log + Moves(r' - r, c' - c) + [PickUp] && cells' == cells + {(r', c')}
    ensures AllAlive(bs', hand)
    ensures Progress(b0, plan, rest[1..], bs', hand', r', c', log', trip, cells')
  {
    StepSimulated(b0, plan, rest, bs, hand, r, c, bs', r', c');
    ElemsAppend({}, hand, rest[0]);
    CellsAdd(b0, Elems(hand), rest[0]);
    StepTrip(b0, rest, r, c, log, trip, r', c', log');
  }

  /** The store and simulation part of ProgressStep. */
  lemma StepSimulated(b0: seq<Box>, plan: seq<int>, rest: seq<int>, bs: seq<Box>, hand: seq<int>,
                      r: int, c: int, bs': seq<Box>, r': int, c': int)
    requires Split(b0, plan, rest, bs, hand) && SimulatedSoFar(b0, plan, rest, bs, hand, r, c) && rest != []
    requires r' == bs[rest[0]].r && c' == bs[rest[0]].c && bs' == Pass(bs, hand, Dist(r, c, r', c'))
    ensures b0[rest[0]].r == r' && b0[rest[0]].c == c'
    ensures AllAlive(bs', hand) && Split(b0, plan, rest[1..], bs', hand + [rest[0]])
    ensures SimulatedSoFar(b0, plan, rest[1..], bs', hand + [rest[0]], r', c')
  {
    assert (hand + [rest[0]]) + rest[1..] == hand + rest;
    WearFrame(bs, hand, Dist(r, c, r', c'));
  }

  /** The log part of ProgressStep: the leg just recorded is the head of what was due. */
  lemma StepTrip(b0: seq<Box>, rest: seq<int>, r: int, c: int, log: seq<Token>, trip: seq<Token>,
                 r': int, c': int, log': seq<Token>)
    requires ValidIds(b0, rest) && rest != [] && trip == log + TripTokens(b0, r, c, rest)
    requires r' == b0[rest[0]].r && c' == b0[rest[0]].c
    requires log' == log + Moves(r' - r, c' - c) + [PickUp]
    ensures trip == log' + TripTokens(b0, r', c', rest[1..])
  {
    var leg := Moves(r' - r, c' - c) + [PickUp];
    AppendAssoc(log, leg, TripTokens(b0, r', c', rest[1..]));
    AppendAssoc(log, Moves(r' - r, c' - c), [PickUp]);
  }

  /** Once every box is on the hand, the walk home crushes nothing, ends in the
      simulator's final store, and completes the trip's log. */
  lemma ProgressDone(b0: seq<Box>, plan: seq<int>, bs: seq<Box>, hand: seq<int>,
                     r: int, c: int, log: seq<Token>, trip: seq<Token>, cells: set<(int, int)>,
                     bs': seq<Box>, log': seq<Token>)
    requires Progress(b0, plan, [], bs, hand, r, c, log, trip, cells)
    requires bs' == Pass(bs, hand, Dist(r, c, 0, 0)) && log' == log + Moves(0 - r, 0 - c)
    ensures hand == plan && cells == Cells(b0, Elems(plan))
    ensures AllAlive(bs', hand) && Simulate(b0, [], 0, 0, plan) == Some(bs') && trip == log'
  {
    assert hand + [] == hand;
  }

  /** What a run has achieved so far, from the initial store b0: the pending
      boxes are untouched, every delivered box is intact, the cells of the
      delivered boxes are `cleared`, and the log walks from the origin back to
      it with one pickup per delivered box. */
  ghost predicate Delivery(b0: seq<Box>, remaining: set<int>, bs: seq<Box>, log: seq<Token>,
                           cleared: set<(int, int)>)
  {
    remaining <= Ids(|b0|) && SameLayout(b0, bs) &&
    (forall k :: k in remaining ==> bs[k] == b0[k]) &&
    (forall k :: 0 <= k < |bs| && k !in remaining ==> bs[k].dCurrent > 0) &&
    cleared == Cells(b0, Ids(|b0|) - remaining) &&
    Walk((0, 0), log) == (0, 0) && CountPicks(log) == |b0| - |remaining|
  }

  /** A delivered plan leaves its boxes intact and every other box untouched. */
  lemma OutcomeOfPlan(bs: seq<Box>, plan: seq<int>, f: seq<Box>)
    requires ValidIds(bs, plan) && Simulate(bs, [], 0, 0, plan) == Some(f)
    ensures SameLayout(bs, f)
    ensures forall k :: 0 <= k < |f| && k in Elems(plan) ==> f[k].dCurrent > 0
    ensures forall k :: 0 <= k < |f| && k !in Elems(plan) ==> f[k] == bs[k]
  {
    SimulateOutcome(bs, [], 0, 0, plan);
    assert [] + plan == plan;
    forall k | 0 <= k < |f| && k in Elems(plan)
      ensures f[k].dCurrent > 0
    {
      var q :| 0 <= q < |plan| && plan[q] == k;
      assert ([] + plan)[q] == k;
    }
  }

  /** Appending a plan's trip to a log that returns home: the log still returns
      home and holds |plan| more pickups. */
  lemma LogAppendTrip(bs: seq<Box>, plan: seq<int>, log: seq<Token>)
    requires ValidIds(bs, plan) && Walk((0, 0), log) == (0, 0)
    ensures Walk((0, 0), log + TripTokens(bs, 0, 0, plan)) == (0, 0)
    ensures CountPicks(log + TripTokens(bs, 0, 0, plan)) == CountPicks(log) + |plan|
  {
    TripReturnsHome(bs, 0, 0, plan);
    WalkConcat((0, 0), log, TripTokens(bs, 0, 0, plan));
  }

  /** Delivering a plan moves exactly its ids from pending to delivered. */
  lemma DeliveredGrow(m: nat, remaining: set<int>, plan: seq<int>)
    requires remaining <= Ids(m) && Distinct(plan) && Elems(plan) <= remaining
    ensures Ids(m) - (remaining - Elems(plan)) == (Ids(m) - remaining) + Elems(plan)
    ensures |remaining - Elems(plan)| == |remaining| - |plan|
  {
    PendingShrinks(remaining, plan);
  }

  /** Nothing is delivered before the first cycle. */
  lemma DeliveryStart(b0: seq<Box>)
    ensures Delivery(b0, Ids(|b0|), b0, [], {})
  {
    assert Ids(|b0|) - Ids(|b0|) == {};
  }

  /** What a finished run has achieved, read off the delivery record. */
  lemma DeliveryDone(b0: seq<Box>, a0: seq<Token>, remaining: set<int>, bs: seq<Box>, log: seq<Token>,
                     cleared: set<(int, int)>, actions: seq<Token>, stuck: bool)
    requires Delivery(b0, remaining, bs, log, cleared) && actions == a0 + log
    requires stuck <==> remaining != {}
    requires stuck ==> forall k :: k in remaining ==> bs[k].dCurrent <= 0
    ensures remaining <= Ids(|bs|) && SameLayout(b0, bs)
    ensures forall k :: k in remaining ==> bs[k] == b0[k]
    ensures forall k :: 0 <= k < |bs| && k !in remaining ==> bs[k].dCurrent > 0
    ensures (forall k :: 0 <= k < |bs| ==> b0[k].dCurrent > 0) ==> !stuck
    ensures |a0| <= |actions| && actions[..|a0|] == a0
    ensures Walk((0, 0), actions[|a0|..]) == (0, 0)
    ensures CountPicks(actions[|a0|..]) == |bs| - |remaining|
    ensures cleared == Cells(b0, Ids(|bs|) - remaining)
  {
    assert actions[..|a0|] == a0 && actions[|a0|..] == log;
    if stuck {
      var k :| k in remaining;
      assert bs[k] == b0[k];
    }
  }

  /** Delivering a non-empty feasible plan of pending boxes, by the round trip
      the simulator predicts, keeps Delivery and shrinks the pending set. */
  lemma DeliveryStep(b0: seq<Box>, remaining: set<int>, bs: seq<Box>, log: seq<Token>,
                     cleared: set<(int, int)>, plan: seq<int>, f: seq<Box>)
    requires Delivery(b0, remaining, bs, log, cleared)
    requires ValidIds(bs, plan) && Distinct(plan) && Elems(plan) <= remaining && plan != []
    requires Simulate(bs, [], 0, 0, plan) == Some(f)
    ensures Delivery(b0, remaining - Elems(plan), f, log + TripTokens(bs, 0, 0, plan),
                     cleared + Cells(bs, Elems(plan)))
    ensures |remaining - Elems(plan)| < |remaining|
  {
    DeliveredBoxes(b0, remaining, bs, log, cleared, plan, f);
    DeliveredCells(b0, remaining, bs, log, cleared, plan);
    DeliveredLog(b0, remaining, bs, log, cleared, plan);
  }

  /** The boxes part of DeliveryStep: delivered boxes are intact, pending ones untouched. */
  lemma DeliveredBoxes(b0: seq<Box>, remaining: set<int>, bs: seq<Box>, log: seq<Token>,
                       cleared: set<(int, int)>, plan: seq<int>, f: seq<Box>)
    requires Delivery(b0, remaining, bs, log, cleared)
    requires ValidIds(bs, plan) && Elems(plan) <= remaining
    requires Simulate(bs, [], 0, 0, plan) == Some(f)
    ensures SameLayout(b0, f)
    ensures forall k :: k in remaining - Elems(plan) ==> f[k] == b0[k]
    ensures forall k :: 0 <= k < |f| && k !in remaining - Elems(plan) ==> f[k].dCurrent > 0
  {
    OutcomeOfPlan(bs, plan, f);
  }

  /** The cells part of DeliveryStep. */
  lemma DeliveredCells(b0: seq<Box>, remaining: set<int>, bs: seq<Box>, log: seq<Token>,
                       cleared: set<(int, int)>, plan: seq<int>)
    requires Delivery(b0, remaining, bs, log, cleared)
    requires Distinct(plan) && Elems(plan) <= remaining
    ensures cleared + Cells(bs, Elems(plan)) == Cells(b0, Ids(|b0|) - (remaining - Elems(plan)))
  {
    DeliveredGrow(|b0|, remaining, plan);
    CellsUnion(b0, Ids(|b0|) - remaining, Elems(plan));
    CellsLayout(b0, bs, Elems(plan));
  }

  /** The log part of DeliveryStep. */
  lemma DeliveredLog(b0: seq<Box>, remaining: set<int>, bs: seq<Box>, log: seq<Token>,
                     cleared: set<(int, int)>, plan: seq<int>)
    requires Delivery(b0, remaining, bs, log, cleared)
    requires ValidIds(bs, plan) && Distinct(plan) && Elems(plan) <= remaining && plan != []
    ensures Walk((0, 0), log + TripTokens(bs, 0, 0, plan)) == (0, 0)
    ensures CountPicks(log + TripTokens(bs, 0, 0, plan)) == |b0| - |remaining - Elems(plan)|
    ensures |remaining - Elems(plan)| < |remaining|
  {
    LogAppendTrip(bs, plan, log);
    DeliveredGrow(|b0|, remaining, plan);
  }


  /** One delivered cycle: from the store bs with pending set `pending`, the
      committed plan is a non-empty greedy plan from the origin that no
      remaining candidate extends; the simulator predicts that it ends in bs',
      and exactly its ids leave the pending set. */
  ghost predicate Turn(bs: seq<Box>, pending: set<int>, plan: seq<int>, bs': seq<Box>, pending': set<int>)
  {
    plan != [] && ValidIds(bs, plan) && GreedyChain(bs, pending, plan, 0, 0) &&
    NoneFeasible(bs, pending - Elems(plan), plan) &&
    Simulate(bs, [], 0, 0, plan) == Some(bs') && pending' == pending - Elems(plan)
  }

  /** The cycles of a run: cycle t starts from the store stores[t] with the
      pending set pendings[t], delivers plans[t], and leaves stores[t + 1] and
      pendings[t + 1]. */
  ghost predicate History(stores: seq<seq<Box>>, plans: seq<seq<int>>, pendings: seq<set<int>>)
  {
    Logged(stores, plans) && |pendings| == |plans| + 1 &&
    forall t :: 0 <= t < |plans| ==> Turn(stores[t], pendings[t], plans[t], stores[t + 1], pendings[t + 1])
  }

  /** One store per cycle start and one more at the end, and every plan names
      boxes of its cycle's store. */
  predicate Logged(stores: seq<seq<Box>>, plans: seq<seq<int>>)
  {
    |stores| == |plans| + 1 && forall t :: 0 <= t < |plans| ==> ValidIds(stores[t], plans[t])
  }

  /** The log of a run's cycles: the trip of each plan from its cycle's store, in order. */
  function Trips(stores: seq<seq<Box>>, plans: seq<seq<int>>): (log: seq<Token>)
    requires Logged(stores, plans)
    decreases |plans|
  {
    if plans == [] then []
    else
      var m := |plans| - 1;
      Trips(stores[..m + 1], plans[..m]) + TripTokens(stores[m], 0, 0, plans[m])
  }

  /** One more recorded store and plan append that plan's trip to the log. */
  lemma TripsExtend(stores: seq<seq<Box>>, plans: seq<seq<int>>, plan: seq<int>, bs': seq<Box>)
    requires Logged(stores, plans) && ValidIds(stores[|plans|], plan)
    ensures Logged(stores + [bs'], plans + [plan])
    ensures Trips(stores + [bs'], plans + [plan]) == Trips(stores, plans) + TripTokens(stores[|plans|], 0, 0, plan)
  {
    var stores', plans' := stores + [bs'], plans + [plan];
    assert forall t :: 0 <= t < |plans| ==> stores'[t] == stores[t] && plans'[t] == plans[t];
    assert stores'[..|plans| + 1] == stores && plans'[..|plans|] == plans;
  }

  /** Recording one more delivered cycle extends the history, and its trip
      extends the log. */
  lemma HistoryExtend(stores: seq<seq<Box>>, plans: seq<seq<int>>, pendings: seq<set<int>>,
                      plan: seq<int>, bs': seq<Box>, pending': set<int>)
    requires History(stores, plans, pendings)
    requires Turn(stores[|plans|], pendings[|plans|], plan, bs', pending')
    ensures History(stores + [bs'], plans + [plan], pendings + [pending'])
    ensures Trips(stores + [bs'], plans + [plan]) == Trips(stores, plans) + TripTokens(stores[|plans|], 0, 0, plan)
  {
    TripsExtend(stores, plans, plan, bs');
    var stores', plans', pendings' := stores + [bs'], plans + [plan], pendings + [pending'];
    forall t | 0 <= t < |plans'|
      ensures Turn(stores'[t], pendings'[t], plans'[t], stores'[t + 1], pendings'[t + 1])
    {
      if t < |plans| {
        assert stores'[t] == stores[t] && stores'[t + 1] == stores[t + 1];
        assert pendings'[t] == pendings[t] && pendings'[t + 1] == pendings[t + 1] && plans'[t] == plans[t];
      }
    }
  }

  /** The cycles record of a run from the store b0: its history starts from b0
      with every box pending, ends in the live store `bs` with `remaining`
      pending, and `log` is the trips of its plans. */
  ghost predicate Record(b0: seq<Box>, remaining: set<int>, bs: seq<Box>, log: seq<Token>,
                         stores: seq<seq<Box>>, plans: seq<seq<int>>, pendings: seq<set<int>>)
  {
    History(stores, plans, pendings) && stores[0] == b0 && stores[|plans|] == bs &&
    pendings[0] == Ids(|b0|) && pendings[|plans|] == remaining && log == Trips(stores, plans)
  }

  /** A delivered cycle extends the record of the run. */
  lemma RecordStep(b0: seq<Box>, remaining: set<int>, bs: seq<Box>, log: seq<Token>,
                   stores: seq<seq<Box>>, plans: seq<seq<int>>, pendings: seq<set<int>>,
                   plan: seq<int>, bs': seq<Box>, remaining': set<int>, log': seq<Token>)
    requires Record(b0, remaining, bs, log, stores, plans, pendings)
    requires Turn(bs, remaining, plan, bs', remaining') && log' == log + TripTokens(bs, 0, 0, plan)
    ensures Record(b0, remaining', bs', log', stores + [bs'], plans + [plan], pendings + [remaining'])
  {
    HistoryExtend(stores, plans, pendings, plan, bs', remaining');
  }

  class Solver {
    const n: int
    var px: int
    var py: int
    /** The carried stack, as ids into `boxes`; the last one is on top. */
    var hand: seq<int>
    var actions: seq<Token>
    /** The live registry: box k has id k. */
    var boxes: seq<Box>
    /** Cell -> id of the box on it, -1 once empty. */
    var grid: array2<int>
    /** Set when the executor sees a held box crushed (a planner/simulator mismatch). */
    var crushReported: bool

    ghost predicate Valid()
      reads this
    {
      grid.Length0 == n && grid.Length1 == n &&
      WellFormed(boxes) && OnGrid(boxes, n) && Separate(boxes) &&
      ValidIds(boxes, hand) && Distinct(hand)
    }

    /** Builds the registry: each cell of positive weight becomes a box with the
        next id in row-major order, recorded in the grid; other cells get -1. */
    constructor (n: int, weights: seq<seq<int>>, durabilities: seq<seq<int>>)
      requires 0 <= n && |weights| == n && |durabilities| == n
      requires forall i :: 0 <= i < n ==> |weights[i]| == n && |durabilities[i]| == n
      ensures Valid() && fresh(grid) && this.n == n
      ensures px == 0 && py == 0 && hand == [] && actions == [] && !crushReported
      ensures forall i, j :: 0 <= i < n && 0 <= j < n ==> grid[i, j] == IdAt(weights, i, j)
      ensures |boxes| == BoxCount(weights)
      ensures forall k :: 0 <= k < |boxes| ==>
        IdAt(weights, boxes[k].r, boxes[k].c) == k &&
        boxes[k].w == weights[boxes[k].r][boxes[k].c] &&
        boxes[k].dInitial == durabilities[boxes[k].r][boxes[k].c] &&
        boxes[k].dCurrent == boxes[k].dInitial
    {
      this.n := n;
      px, py := 0, 0;
      hand := [];
      actions := [];
      boxes := [];
      crushReported := false;
      grid := new int[n, n];
      new;
      var boxIdCounter := 0;
      for i := 0 to n
        invariant boxIdCounter == |boxes| == RowsCount(weights, i)
        invariant fresh(grid) && grid.Length0 == n && grid.Length1 == n
        invariant px == 0 && py == 0 && hand == [] && actions == [] && !crushReported
        invariant forall i', j' :: 0 <= i' < i && 0 <= j' < n ==> grid[i', j'] == IdAt(weights, i', j')
        invariant Registered(weights, durabilities, n, boxes, i, 0)
      {
        for j := 0 to n
          invariant boxIdCounter == |boxes| == RowsCount(weights, i) + RowCount(weights[i], j)
          invariant fresh(grid) && grid.Length0 == n && grid.Length1 == n
          invariant px == 0 && py == 0 && hand == [] && actions == [] && !crushReported
          invariant forall i', j' :: 0 <= i' < n && 0 <= j' < n && Before(i', j', i, j) ==>
            grid[i', j'] == IdAt(weights, i', j')
          invariant Registered(weights, durabilities, n, boxes, i, j)
        {
          if weights[i][j] > 0 {
            RegisterBox(weights, durabilities, n, boxes, i, j);
            var box := Box(boxIdCounter, i, j, weights[i][j], durabilities[i][j], durabilities[i][j]);
            boxes := boxes + [box];
            grid[i, j] := boxIdCounter;
            boxIdCounter := boxIdCounter + 1;
          } else {
            RegisterNone(weights, durabilities, n, boxes, i, j);
            grid[i, j] := -1;
          }
        }
        RegisterRow(weights, durabilities, n, boxes, i);
      }
      RegisterDone(weights, durabilities, n, boxes);
    }

    /** Moves the agent to (tr, tc) (Main.java:319-350): records |dr| vertical
        then |dc| horizontal step tokens and wears the live hand exactly as the
        simulator wears its copy; a held box crushed on the way is reported. */
    method MoveTo(tr: int, tc: int)
      requires Valid()
      modifies this
      ensures Valid() && grid == old(grid)
      ensures px == tr && py == tc && hand == old(hand)
      ensures actions == old(actions) + Moves(tr - old(px), tc - old(py))
      ensures boxes == Pass(old(boxes), hand, Dist(old(px), old(py), tr, tc))
      ensures Dist(old(px), old(py), tr, tc) == 0 ==> boxes == old(boxes) && actions == old(actions)
      ensures crushReported ==
        (old(crushReported) || (Dist(old(px), old(py), tr, tc) > 0 && !AllAlive(boxes, hand)))
    {
      var dr := tr - px;
      var dc := tc - py;
      var moveDist := Abs(dr) + Abs(dc);
      if moveDist == 0 {
        PassZero(boxes, hand, |hand|, 0);
        return;
      }
      RecordMoves(dr, dc);
      ghost var b0 := boxes;
      WearHand(moveDist);
      PassFromLowers(b0, hand, |hand|, 0, moveDist);
      PassFromLayout(b0, hand, |hand|, 0, moveDist);
      LayoutKeeps(b0, boxes, hand, n);
      px, py := tr, tc;
    }

    /** The token half of MoveTo (Main.java:328-332). */
    method RecordMoves(dr: int, dc: int)
      modifies this`actions
      ensures actions == old(actions) + Moves(dr, dc)
    {
      if dr > 0 {
        for i := 0 to dr
          invariant actions == old(actions) + Repeat(D, i)
        {
          AppendAssoc(old(actions), Repeat(D, i), [D]);
          actions := actions + [D];
        }
      } else {
        for i := 0 to -dr
          invariant actions == old(actions) + Repeat(U, i)
        {
          AppendAssoc(old(actions), Repeat(U, i), [U]);
          actions := actions + [U];
        }
      }
      ghost var vertical := actions;
      if dc > 0 {
        for i := 0 to dc
          invariant actions == vertical + Repeat(R, i)
        {
          AppendAssoc(vertical, Repeat(R, i), [R]);
          actions := actions + [R];
        }
      } else {
        for i := 0 to -dc
          invariant actions == vertical + Repeat(L, i)
        {
          AppendAssoc(vertical, Repeat(L, i), [L]);
          actions := actions + [L];
        }
      }
      AppendAssoc(old(actions), Repeat(if dr > 0 then D else U, Abs(dr)), Repeat(if dc > 0 then R else L, Abs(dc)));
    }

    /** The wear half of MoveTo (Main.java:335-346): the same top-down pass as
        the simulator's, on the live boxes, reporting every box left at
        durability <= 0 instead of stopping. */
    method WearHand(moveDist: int)
      requires ValidIds(boxes, hand) && Distinct(hand)
      modifies this`boxes, this`crushReported
      ensures boxes == Pass(old(boxes), hand, moveDist)
      ensures crushReported == (old(crushReported) || !AllAlive(boxes, hand))
    {
      var start, live := boxes, boxes;
      var crushed := false;
      var weightOnTop := 0;
      var i := |hand| - 1;
      while i >= 0
        invariant PassedDown(start, hand, moveDist, live, i, weightOnTop)
        invariant crushed == !AliveFrom(live, hand, i + 1)
        invariant crushReported == old(crushReported)
      {
        var id := hand[i];
        PassDownStep(start, hand, moveDist, live, i, weightOnTop);
        weightOnTop, live := weightOnTop + live[id].w,
          live[id := live[id].(dCurrent := live[id].dCurrent - weightOnTop * moveDist)];
        if live[id].dCurrent <= 0 {
          crushed := true;
        }
        i := i - 1;
      }
      PassDownDone(start, hand, moveDist, live, weightOnTop);
      boxes := live;
      if crushed {
        crushReported := true;
      }
    }

    /** Takes the box `id` (on the agent's cell) onto the top of the hand and
        records the token `1`. */
    method Pick(id: int)
      requires Valid() && 0 <= id < |boxes| && id !in hand
      modifies this
      ensures Valid()
      ensures hand == old(hand) + [id] && actions == old(actions) + [PickUp]
      ensures boxes == old(boxes) && px == old(px) && py == old(py)
      ensures grid == old(grid) && crushReported == old(crushReported)
    {
      hand := hand + [id];
      actions := actions + [PickUp];
    }

    /** The feasibility simulator: runs the plan on a private copy of the
        registry, from the origin with an empty hand, and answers whether no box
        is crushed on any leg out or on the way back. It changes nothing. */
    method IsPlanFeasible(plan: seq<int>) returns (ok: bool)
      requires ValidIds(boxes, plan) && Distinct(plan)
      ensures ok == Feasible(boxes, plan)
      ensures plan == [] ==> ok
    {
      if plan == [] {
        return true;
      }
      var start := boxes;
      var sim := start;
      var rSim, cSim := 0, 0;
      var tempHand: seq<int> := [];
      for p := 0 to |plan|
        invariant tempHand == plan[..p] && |sim| == |start|
        invariant Simulate(start, [], 0, 0, plan) == Simulate(sim, tempHand, rSim, cSim, plan[p..])
      {
        var nextBox := sim[plan[p]];
        var dist := Dist(nextBox.r, nextBox.c, rSim, cSim);
        SimulateLeg(sim, tempHand, rSim, cSim, plan, p);
        var alive;
        sim, alive := SimulatedPass(sim, tempHand, dist);
        if !alive {
          assert Simulate(start, [], 0, 0, plan) == None;
          return false;
        }
        SplitAt(plan, p);
        tempHand := tempHand + [plan[p]];
        rSim, cSim := nextBox.r, nextBox.c;
      }
      assert tempHand == plan;
      var distToOrigin := Dist(0, 0, rSim, cSim);
      SimulateHome(sim, plan, rSim, cSim);
      var alive;
      sim, alive := SimulatedPass(sim, tempHand, distToOrigin);
      if !alive {
        assert Simulate(start, [], 0, 0, plan) == None;
        return false;
      }
      assert Simulate(start, [], 0, 0, plan) == Some(sim);
      return true;
    }

    /** One greedy step (Main.java:160-185): among the candidates, in ascending
        id, the first one of strictly smallest score dist / w from `from` whose
        addition keeps the plan feasible; -1 when none does. */
    method SelectNext(candidates: set<int>, plan: seq<int>, from: (int, int)) returns (best: int)
      requires WellFormed(boxes) && ValidIds(boxes, plan) && Distinct(plan)
      requires forall c :: c in candidates ==> 0 <= c < |boxes| && c !in plan
      ensures best == -1 <==> NoneFeasible(boxes, candidates, plan)
      ensures best != -1 ==> FirstBest(boxes, candidates, plan, from, best)
    {
      best := -1;
      // the score of `best` is bestDist / bestW; with best == -1 it stands for +infinity
      var bestDist, bestW := 0, 1;
      for id := 0 to |boxes|
        invariant best == -1 <==> forall c :: c in candidates && c < id ==> !Feasible(boxes, plan + [c])
        invariant best != -1 ==>
          0 <= best < id && best in candidates && Feasible(boxes, plan + [best]) &&
          bestDist == Dist(boxes[best].r, boxes[best].c, from.0, from.1) && bestW == boxes[best].w
        invariant best != -1 ==> forall c :: c in candidates && c < id && Feasible(boxes, plan + [c]) ==>
          !Beats(boxes, from, c, best)
        invariant best != -1 ==> forall c :: c in candidates && c < best && Feasible(boxes, plan + [c]) ==>
          Beats(boxes, from, best, c)
      {
        if id in candidates {
          var box := boxes[id];
          var dist := Dist(box.r, box.c, from.0, from.1);
          assert Distinct(plan + [id]) && ValidIds(boxes, plan + [id]);
          var feasible := IsPlanFeasible(plan + [id]);
          if feasible {
            if best == -1 || dist * bestW < bestDist * box.w {
              ghost var old_best := best;
              if best != -1 {
                forall c | c in candidates && c < id && Feasible(boxes, plan + [c])
                  ensures !Beats(boxes, from, c, id) && Beats(boxes, from, id, c)
                {
                  if Beats(boxes, from, c, id) {
                    BeatsChain(boxes, from, c, id, old_best);
                  }
                  if c != old_best {
                    BeatsChain(boxes, from, id, old_best, c);
                  }
                }
              }
              best, bestDist, bestW := id, dist, box.w;
            }
          }
        }
      }
    }

    /** Builds one cycle's plan (Main.java:136-193): keeps appending the greedy
        choice among the pending boxes not yet planned, measured from the end of
        the plan so far, until no candidate is left or none stays feasible. */
    method PlanCycle(remaining: set<int>) returns (plan: seq<int>)
      requires WellFormed(boxes)
      requires forall x :: x in remaining ==> 0 <= x < |boxes|
      ensures Distinct(plan) && Elems(plan) <= remaining && Feasible(boxes, plan)
      ensures GreedyChain(boxes, remaining, plan, px, py)
      ensures NoneFeasible(boxes, remaining - Elems(plan), plan)
    {
      plan := [];
      while true
        invariant Distinct(plan) && Elems(plan) <= remaining && Feasible(boxes, plan)
        invariant GreedyChain(boxes, remaining, plan, px, py)
        decreases |remaining - Elems(plan)|
      {
        var current := (px, py);
        if plan != [] {
          var lastBoxInPlan := boxes[plan[|plan| - 1]];
          current := (lastBoxInPlan.r, lastBoxInPlan.c);
        }
        var candidateIds := remaining - Elems(plan);
        if candidateIds == {} {
          break;
        }
        assert current == Anchor(boxes, plan, px, py);
        Unplanned(|boxes|, remaining, plan);
        var bestNextBoxId := SelectNext(candidateIds, plan, current);
        if bestNextBoxId != -1 {
          ChainStep(boxes, remaining, plan, px, py, bestNextBoxId);
          plan := plan + [bestNextBoxId];
        } else {
          break;
        }
      }
    }

    /** One step of the executor (Main.java:232-236): walks to the box `id`,
        takes it onto the hand and marks its cell empty in the grid. */
    method FetchBox(id: int)
      requires Valid() && 0 <= id < |boxes| && id !in hand
      modifies this, grid
      ensures Valid() && grid == old(grid) && hand == old(hand) + [id]
      ensures px == old(boxes)[id].r && py == old(boxes)[id].c
      ensures boxes == Pass(old(boxes), old(hand), Dist(old(px), old(py), px, py))
      ensures actions == old(actions) + Moves(px - old(px), py - old(py)) + [PickUp]
      ensures crushReported ==
        (old(crushReported) || (Dist(old(px), old(py), px, py) > 0 && !AllAlive(boxes, old(hand))))
      ensures forall i, j :: 0 <= i < n && 0 <= j < n ==>
        grid[i, j] == if i == px && j == py then -1 else old(grid[i, j])
    {
      var box := boxes[id];
      MoveTo(box.r, box.c);
      PassFromLayout(old(boxes), hand, |hand|, 0, Dist(old(px), old(py), px, py));
      Pick(id);
      grid[box.r, box.c] := -1;
    }

    /** One turn of the executor's loop over a plan in progress: fetches the
        plan's next box and keeps the executor in step with the simulator's
        run of the same plan. */
    method ExecuteNext(ghost b0: seq<Box>, ghost plan: seq<int>, rest: seq<int>,
                       ghost trip: seq<Token>, ghost cells: set<(int, int)>) returns (ghost cells': set<(int, int)>)
      requires Valid() && rest != [] && Distinct(plan)
      requires Progress(b0, plan, rest, boxes, hand, px, py, actions, trip, cells)
      modifies this, grid
      ensures Valid() && grid == old(grid) && crushReported == old(crushReported)
      ensures Progress(b0, plan, rest[1..], boxes, hand, px, py, actions, trip, cells')
      ensures hand == old(hand) + [rest[0]] && px == old(boxes)[rest[0]].r && py == old(boxes)[rest[0]].c
      ensures boxes == Pass(old(boxes), old(hand), Dist(old(px), old(py), px, py))
      ensures cells' == cells + {(px, py)}
      ensures forall i, j :: 0 <= i < n && 0 <= j < n ==>
        grid[i, j] == if i == px && j == py then -1 else old(grid[i, j])
    {
      var id := rest[0];
      ProgressNext(b0, plan, rest, boxes, hand, px, py, actions, trip, cells);
      FetchBox(id);
      cells' := cells + {(px, py)};
      ProgressStep(b0, plan, rest, old(boxes), old(hand), old(px), old(py), old(actions), trip, cells,
                   boxes, hand, px, py, actions, cells');
    }

    /** The end of a plan's execution (Main.java:237): with every box of the
        plan on the hand, the walk back to the origin crushes nothing and ends
        in the simulator's final store. */
    method ReturnHome(ghost b0: seq<Box>, ghost plan: seq<int>, ghost trip: seq<Token>, ghost cells: set<(int, int)>)
      requires Valid() && Progress(b0, plan, [], boxes, hand, px, py, actions, trip, cells)
      modifies this
      ensures Valid() && grid == old(grid) && hand == plan && px == 0 && py == 0
      ensures Simulate(b0, [], 0, 0, plan) == Some(boxes) && actions == trip
      ensures crushReported == old(crushReported) && cells == Cells(b0, Elems(plan))
    {
      MoveTo(0, 0);
      ProgressDone(b0, plan, old(boxes), hand, old(px), old(py), old(actions), trip, cells, boxes, actions);
    }

    /** Carries out a committed plan (Main.java:231-237) from the origin with an
        empty hand: walks to each box in turn, picks it and clears its cell,
        then walks home. The live run ends exactly where the simulator's run of
        the same plan ends, leaves no box crushed, and records the plan's trip. */
    method ExecutePlan(plan: seq<int>)
      requires Valid() && hand == [] && px == 0 && py == 0
      requires Distinct(plan) && Feasible(boxes, plan)
      modifies this, grid
      ensures Valid() && grid == old(grid) && hand == plan && px == 0 && py == 0
      ensures Simulate(old(boxes), [], 0, 0, plan) == Some(boxes)
      ensures actions == old(actions) + TripTokens(old(boxes), 0, 0, plan)
      ensures crushReported == old(crushReported)
      ensures forall i, j :: 0 <= i < n && 0 <= j < n ==>
        grid[i, j] == if (i, j) in Cells(old(boxes), Elems(plan)) then -1 else old(grid[i, j])
    {
      ghost var b0 := boxes;
      ghost var trip := actions + TripTokens(b0, 0, 0, plan);
      ghost var cells: set<(int, int)> := {};
      var rest := plan;
      while rest != []
        invariant Valid() && grid == old(grid)
        invariant Progress(b0, plan, rest, boxes, hand, px, py, actions, trip, cells)
        invariant crushReported == old(crushReported)
        invariant forall i, j :: 0 <= i < n && 0 <= j < n ==>
          grid[i, j] == if (i, j) in cells then -1 else old(grid[i, j])
        decreases |rest|
      {
        cells := ExecuteNext(b0, plan, rest, trip, cells);
        rest := rest[1..];
      }
      ReturnHome(b0, plan, trip, cells);
    }

    /** One transport cycle (Main.java:128-240), started at the origin: plans
        greedily over the pending boxes, falls back to a single box when the
        plan is empty, gives up (`stuck`) when even that finds nothing, and
        otherwise executes the plan. */
    method RunCycle(remaining: set<int>) returns (plan: seq<int>, stuck: bool)
      requires Valid() && px == 0 && py == 0
      requires remaining != {} && forall x :: x in remaining ==> 0 <= x < |boxes|
      modifies this, grid
      ensures Valid() && grid == old(grid) && px == 0 && py == 0
      ensures crushReported == old(crushReported)
      ensures stuck ==> plan == [] && hand == [] && boxes == old(boxes) && actions == old(actions)
      ensures stuck ==> forall c :: c in remaining ==> boxes[c].dCurrent <= 0
      ensures !stuck ==> plan != [] && hand == plan && Distinct(plan) && Elems(plan) <= remaining
      ensures !stuck ==> GreedyChain(old(boxes), remaining, plan, 0, 0)
      ensures !stuck ==> NoneFeasible(old(boxes), remaining - Elems(plan), plan)
      ensures !stuck ==> Simulate(old(boxes), [], 0, 0, plan) == Some(boxes)
      ensures !stuck ==> actions == old(actions) + TripTokens(old(boxes), 0, 0, plan)
      ensures forall i, j :: 0 <= i < n && 0 <= j < n ==>
        grid[i, j] == if (i, j) in Cells(old(boxes), Elems(plan)) then -1 else old(grid[i, j])
    {
      MoveTo(0, 0);
      hand := [];
      plan := PlanCycle(remaining);
      stuck := false;
      if plan == [] && remaining != {} {
        // the fallback searches what the greedy's first step searched
        assert remaining - Elems(plan) == remaining;
        var singleTargetId := SelectNext(remaining, [], (px, py));
        if singleTargetId != -1 {
          plan := [singleTargetId];
        } else {
          EmptyCycle(boxes, remaining, plan, px, py);
          stuck := true;
          return;
        }
      }
      if plan == [] && remaining != {} {
        stuck := true;
        return;
      }
      ExecutePlan(plan);
    }

    /** One turn of the delivery loop (Main.java:128-240): runs a cycle over the
        pending boxes; unless it is stuck, the delivered boxes leave the
        pending set and their trip and cells join the record of the run. */
    method DeliverNext(ghost b0: seq<Box>, ghost a0: seq<Token>, remaining: set<int>,
                       ghost log: seq<Token>, ghost cleared: set<(int, int)>)
      returns (remaining': set<int>, stuck: bool, ghost plan: seq<int>, ghost log': seq<Token>,
               ghost cleared': set<(int, int)>)
      requires Valid() && px == 0 && py == 0 && remaining != {}
      requires Delivery(b0, remaining, boxes, log, cleared) && actions == a0 + log
      requires forall i, j :: 0 <= i < n && 0 <= j < n && (i, j) in cleared ==> grid[i, j] == -1
      modifies this, grid
      ensures Valid() && grid == old(grid) && px == 0 && py == 0
      ensures crushReported == old(crushReported)
      ensures stuck ==> boxes == old(boxes) && remaining' == remaining && hand == []
      ensures stuck ==> actions == old(actions) && log' == log && cleared' == cleared
      ensures stuck ==> forall k :: k in remaining ==> boxes[k].dCurrent <= 0
      ensures !stuck ==> plan != [] && hand == plan && Distinct(plan) && Elems(plan) <= remaining
      ensures !stuck ==> remaining' == remaining - Elems(plan) && |remaining'| == |remaining| - |plan|
      ensures !stuck ==> GreedyChain(old(boxes), remaining, plan, 0, 0)
      ensures !stuck ==> NoneFeasible(old(boxes), remaining - Elems(plan), plan)
      ensures !stuck ==> Simulate(old(boxes), [], 0, 0, plan) == Some(boxes)
      ensures !stuck ==> log' == log + TripTokens(old(boxes), 0, 0, plan)
      ensures !stuck ==> Turn(old(boxes), remaining, plan, boxes, remaining')
      ensures remaining' <= remaining && cleared <= cleared'
      ensures Delivery(b0, remaining', boxes, log', cleared') && actions == a0 + log'
      ensures forall i, j :: 0 <= i < n && 0 <= j < n ==>
        grid[i, j] == if (i, j) in cleared' then -1 else old(grid[i, j])
    {
      ghost var b := boxes;
      var cyclePlan;
      cyclePlan, stuck := RunCycle(remaining);
      plan := cyclePlan;
      if stuck {
        return remaining, true, plan, log, cleared;
      }
      DeliveryStep(b0, remaining, b, log, cleared, plan, boxes);
      PendingShrinks(remaining, plan);
      AppendAssoc(a0, log, TripTokens(b, 0, 0, plan));
      log' := log + TripTokens(b, 0, 0, plan);
      cleared' := cleared + Cells(b, Elems(plan));
      remaining' := remaining - Elems(cyclePlan);
    }

    /** One turn of the main loop of solve, recorded: delivers the next cycle
        and, unless it is stuck, appends its store, plan and pending set to
        the record of the run. */
    method Cycle(ghost b0: seq<Box>, ghost a0: seq<Token>, remaining: set<int>,
                 ghost log: seq<Token>, ghost cleared: set<(int, int)>,
                 ghost stores: seq<seq<Box>>, ghost plans: seq<seq<int>>, ghost pendings: seq<set<int>>)
      returns (remaining': set<int>, stuck: bool, ghost log': seq<Token>, ghost cleared': set<(int, int)>,
               ghost stores': seq<seq<Box>>, ghost plans': seq<seq<int>>, ghost pendings': seq<set<int>>)
      requires Valid() && px == 0 && py == 0 && remaining != {}
      requires Delivery(b0, remaining, boxes, log, cleared) && actions == a0 + log
      requires forall i, j :: 0 <= i < n && 0 <= j < n && (i, j) in cleared ==> grid[i, j] == -1
      requires Record(b0, remaining, boxes, log, stores, plans, pendings)
      modifies this, grid
      ensures Valid() && grid == old(grid) && px == 0 && py == 0
      ensures crushReported == old(crushReported)
      ensures Delivery(b0, remaining', boxes, log', cleared') && actions == a0 + log'
      ensures Record(b0, remaining', boxes, log', stores', plans', pendings')
      ensures stuck ==> remaining' == remaining && hand == [] && plans' == plans
      ensures stuck ==> forall k :: k in remaining ==> boxes[k].dCurrent <= 0
      ensures !stuck ==> plans' != [] && hand == plans'[|plans'| - 1] && |remaining'| < |remaining|
      ensures remaining' <= remaining && cleared <= cleared'
      ensures forall i, j :: 0 <= i < n && 0 <= j < n ==>
        grid[i, j] == if (i, j) in cleared' then -1 else old(grid[i, j])
    {
      ghost var plan;
      ghost var before := boxes;
      remaining', stuck, plan, log', cleared' := DeliverNext(b0, a0, remaining, log, cleared);
      if stuck {
        stores', plans', pendings' := stores, plans, pendings;
      } else {
        RecordStep(b0, remaining, before, log, stores, plans, pendings, plan, boxes, remaining', log');
        stores', plans', pendings' := stores + [boxes], plans + [plan], pendings + [remaining'];
      }
    }

    /** The main loop of solve (Main.java:136-193, 231-240): delivers cycle
        after cycle until every box is delivered or a cycle is stuck,
        recording each cycle's store, plan and pending set. */
    method DeliverAll() returns (stuck: bool, remaining: set<int>, ghost log: seq<Token>,
                                 ghost cleared: set<(int, int)>, ghost plans: seq<seq<int>>,
                                 ghost stores: seq<seq<Box>>, ghost pendings: seq<set<int>>)
      requires Valid() && px == 0 && py == 0
      modifies this, grid
      ensures Valid() && grid == old(grid) && px == 0 && py == 0
      ensures Delivery(old(boxes), remaining, boxes, log, cleared) && actions == old(actions) + log
      ensures Record(old(boxes), remaining, boxes, log, stores, plans, pendings)
      ensures stuck ==> hand == []
      ensures !stuck && plans != [] ==> hand == plans[|plans| - 1]
      ensures !stuck && plans == [] ==> hand == old(hand) && remaining == Ids(|old(boxes)|)
      ensures stuck <==> remaining != {}
      ensures stuck ==> forall k :: k in remaining ==> boxes[k].dCurrent <= 0
      ensures crushReported == old(crushReported)
      ensures forall i, j :: 0 <= i < n && 0 <= j < n ==>
        grid[i, j] == if (i, j) in cleared then -1 else old(grid[i, j])
    {
      remaining := Ids(|boxes|);
      stuck := false;
      ghost var b0, a0 := boxes, actions;
      log, cleared := [], {};
      plans, stores, pendings := [], [boxes], [remaining];
      DeliveryStart(b0);
      while remaining != {}
        invariant Valid() && grid == old(grid) && px == 0 && py == 0 && !stuck
        invariant Delivery(b0, remaining, boxes, log, cleared)
        invariant Record(b0, remaining, boxes, log, stores, plans, pendings)
        invariant plans == [] ==> hand == old(hand) && remaining == Ids(|b0|)
        invariant plans != [] ==> hand == plans[|plans| - 1]
        invariant crushReported == old(crushReported)
        invariant actions == a0 + log
        invariant forall i, j :: 0 <= i < n && 0 <= j < n ==>
          grid[i, j] == if (i, j) in cleared then -1 else old(grid[i, j])
        decreases |remaining|
      {
        var cycleStuck;
        remaining, cycleStuck, log, cleared, stores, plans, pendings :=
          Cycle(b0, a0, remaining, log, cleared, stores, plans, pendings);
        if cycleStuck {
          stuck := true;
          break;
        }
      }
    }

    /** The whole run (Main.java:122-241), from the origin: cycles until every
        box is delivered or a cycle is stuck. Each cycle commits a non-empty
        greedy plan that no remaining candidate extends and delivers it as the
        simulator predicts; the actions are the round trips of those plans.
        Delivered boxes were never crushed, pending ones were never touched,
        the recorded walk ends at the origin with one pickup per delivered box,
        and the grid shows every delivered box's cell as empty. */
    method Solve() returns (stuck: bool, remaining: set<int>, ghost plans: seq<seq<int>>,
                            ghost stores: seq<seq<Box>>, ghost pendings: seq<set<int>>)
      requires Valid() && px == 0 && py == 0
      modifies this, grid
      ensures Valid() && grid == old(grid) && px == 0 && py == 0
      ensures History(stores, plans, pendings) && stores[0] == old(boxes) && stores[|plans|] == boxes
      ensures pendings[0] == Ids(|boxes|) && pendings[|plans|] == remaining
      ensures actions == old(actions) + Trips(stores, plans)
      ensures stuck ==> hand == []
      ensures !stuck && plans != [] ==> hand == plans[|plans| - 1]
      ensures !stuck && plans == [] ==> hand == old(hand) && boxes == []
      ensures remaining <= Ids(|boxes|)
      ensures stuck <==> remaining != {}
      ensures stuck ==> forall k :: k in remaining ==> boxes[k].dCurrent <= 0
      ensures SameLayout(old(boxes), boxes)
      ensures forall k :: k in remaining ==> boxes[k] == old(boxes)[k]
      ensures forall k :: 0 <= k < |boxes| && k !in remaining ==> boxes[k].dCurrent > 0
      ensures (forall k :: 0 <= k < |boxes| ==> old(boxes)[k].dCurrent > 0) ==> !stuck
      ensures crushReported == old(crushReported)
      ensures |old(actions)| <= |actions| && actions[..|old(actions)|] == old(actions)
      ensures Walk((0, 0), actions[|old(actions)|..]) == (0, 0)
      ensures CountPicks(actions[|old(actions)|..]) == |boxes| - |remaining|
      ensures forall i, j :: 0 <= i < n && 0 <= j < n ==>
        grid[i, j] == if (i, j) in Cells(old(boxes), Ids(|boxes|) - remaining) then -1 else old(grid[i, j])
    {
      ghost var log, cleared;
      stuck, remaining, log, cleared, plans, stores, pendings := DeliverAll();
      DeliveryDone(old(boxes), old(actions), remaining, boxes, log, cleared, actions, stuck);
    }
  }
}
