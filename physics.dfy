/** Boxes, the wear rule and the speculative round-trip simulator, as values.
    A box's durability drops, on every move, by the combined weight of the boxes
    stacked above it times the Manhattan length of the move. */
module Physics {

  datatype Option<T> = None | Some(value: T)

  /** One box of the registry. Only `dCurrent` ever changes; positions are (row, column). */
  datatype Box = Box(id: int, r: int, c: int, w: int, dInitial: int, dCurrent: int)

  function Abs(x: int): (a: nat) { if x < 0 then -x else x }

  /** Manhattan distance between two cells. */
  function Dist(r1: int, c1: int, r2: int, c2: int): (d: nat)
  {
    Abs(r1 - r2) + Abs(c1 - c2)
  }

  /** Every id names a box of the store `bs` (the store is indexed by id). */
  predicate ValidIds(bs: seq<Box>, ids: seq<int>)
  {
    forall k :: 0 <= k < |ids| ==> 0 <= ids[k] < |bs|
  }

  predicate Distinct(ids: seq<int>)
  {
    forall a, b :: 0 <= a < b < |ids| ==> ids[a] != ids[b]
  }

  /** The registry's standing facts: a box's id is its index, its weight is
      positive, and wear has never raised its durability. */
  predicate WellFormed(bs: seq<Box>)
  {
    forall k :: 0 <= k < |bs| ==>
      bs[k].id == k && bs[k].w > 0 && bs[k].dCurrent <= bs[k].dInitial
  }

  /** `b2` differs from `b1` at most in the current durabilities. */
  predicate SameLayout(b1: seq<Box>, b2: seq<Box>)
  {
    |b1| == |b2| &&
    forall k :: 0 <= k < |b1| ==>
      b1[k].id == b2[k].id && b1[k].r == b2[k].r && b1[k].c == b2[k].c &&
      b1[k].w == b2[k].w && b1[k].dInitial == b2[k].dInitial
  }

  /** Combined weight of the boxes hand[lo], ..., hand[hi - 1]. */
  function Load(bs: seq<Box>, hand: seq<int>, lo: nat, hi: nat): (load: int)
    requires lo <= hi <= |hand| && ValidIds(bs, hand)
    decreases hi
  {
    if hi == lo then 0 else Load(bs, hand, lo, hi - 1) + bs[hand[hi - 1]].w
  }

  /** Every box of `hand` is still intact. */
  predicate AllAlive(bs: seq<Box>, hand: seq<int>)
    requires ValidIds(bs, hand)
  {
    forall k :: 0 <= k < |hand| ==> bs[hand[k]].dCurrent > 0
  }

  /** The wear pass in the order the source runs it: the boxes hand[i-1], ...,
      hand[0] are visited from the top down, `above` being the weight resting on
      hand[i-1]; each loses `above * dist` and then adds its own weight to `above`. */
  function PassFrom(bs: seq<Box>, hand: seq<int>, i: nat, above: int, dist: int): (r: seq<Box>)
    requires i <= |hand| && ValidIds(bs, hand)
    ensures |r| == |bs|
    decreases i
  {
    if i == 0 then bs
    else
      var id := hand[i - 1];
      PassFrom(bs[id := bs[id].(dCurrent := bs[id].dCurrent - above * dist)],
               hand, i - 1, above + bs[id].w, dist)
  }

  /** One whole wear pass over the stack `hand` (index 0 bottom, last index top)
      for a move of length `dist`. */
  function Pass(bs: seq<Box>, hand: seq<int>, dist: int): (r: seq<Box>)
    requires ValidIds(bs, hand)
    ensures |r| == |bs|
  {
    PassFrom(bs, hand, |hand|, 0, dist)
  }

  /** The round trip of the simulator from the state (bs, hand, position (r, c)):
      before each leg towards the next box of `plan` the held stack is worn and
      checked, the box is then pushed on top; after the last box the stack is
      worn once more for the way back to (0, 0). None as soon as some held box
      has durability <= 0 after a leg; otherwise the final store. */
  function Simulate(bs: seq<Box>, hand: seq<int>, r: int, c: int, plan: seq<int>): (outcome: Option<seq<Box>>)
    requires ValidIds(bs, hand) && ValidIds(bs, plan)
    ensures outcome.Some? ==> |outcome.value| == |bs|
    decreases |plan|
  {
    if plan == [] then
      var after := Pass(bs, hand, Dist(r, c, 0, 0));
      if AllAlive(after, hand) then Some(after) else None
    else
      var next := bs[plan[0]];
      var after := Pass(bs, hand, Dist(r, c, next.r, next.c));
      if AllAlive(after, hand) then Simulate(after, hand + [plan[0]], next.r, next.c, plan[1..])
      else None
  }

  /** A plan is feasible when the simulated round trip from the origin with an
      empty hand never crushes a box. */
  predicate Feasible(bs: seq<Box>, plan: seq<int>): (ok: bool)
    ensures plan == [] ==> ok
  {
    ValidIds(bs, plan) && Simulate(bs, [], 0, 0, plan).Some?
  }

  // ---------------------------------------------------------------------------
  // Lemmas about the wear pass

  lemma {:induction false} LoadSameWeights(b1: seq<Box>, b2: seq<Box>, hand: seq<int>, lo: nat, hi: nat)
    requires SameLayout(b1, b2) && ValidIds(b1, hand) && lo <= hi <= |hand|
    ensures ValidIds(b2, hand) && Load(b1, hand, lo, hi) == Load(b2, hand, lo, hi)
    decreases hi
  {
    if hi > lo {
      LoadSameWeights(b1, b2, hand, lo, hi - 1);
    }
  }

  lemma {:induction false} LoadNonNegative(bs: seq<Box>, hand: seq<int>, lo: nat, hi: nat)
    requires WellFormed(bs) && ValidIds(bs, hand) && lo <= hi <= |hand|
    ensures Load(bs, hand, lo, hi) >= 0
    decreases hi
  {
    if hi > lo {
      LoadNonNegative(bs, hand, lo, hi - 1);
    }
  }

  /** Pushing a box on the stack leaves the load of the boxes below it alone. */
  lemma {:induction false} LoadPush(bs: seq<Box>, hand: seq<int>, x: int, lo: nat, hi: nat)
    requires ValidIds(bs, hand) && 0 <= x < |bs| && lo <= hi <= |hand|
    ensures ValidIds(bs, hand + [x]) && Load(bs, hand + [x], lo, hi) == Load(bs, hand, lo, hi)
    decreases hi
  {
    assert (hand + [x])[..|hand|] == hand;
    if hi > lo {
      LoadPush(bs, hand, x, lo, hi - 1);
      assert (hand + [x])[hi - 1] == hand[hi - 1];
    }
  }

  /** A wear pass never changes anything but current durabilities. */
  lemma {:induction false} PassFromLayout(bs: seq<Box>, hand: seq<int>, i: nat, above: int, dist: int)
    requires i <= |hand| && ValidIds(bs, hand)
    ensures SameLayout(bs, PassFrom(bs, hand, i, above, dist))
    decreases i
  {
    if i > 0 {
      var id := hand[i - 1];
      var next := bs[id := bs[id].(dCurrent := bs[id].dCurrent - above * dist)];
      PassFromLayout(next, hand, i - 1, above + bs[id].w, dist);
    }
  }

  /** A wear pass leaves every box outside the visited part of the stack alone. */
  lemma {:induction false} PassFromFrame(bs: seq<Box>, hand: seq<int>, i: nat, above: int, dist: int, j: int)
    requires i <= |hand| && ValidIds(bs, hand) && 0 <= j < |bs|
    requires forall k :: 0 <= k < i ==> hand[k] != j
    ensures PassFrom(bs, hand, i, above, dist)[j] == bs[j]
    decreases i
  {
    if i > 0 {
      var id := hand[i - 1];
      var next := bs[id := bs[id].(dCurrent := bs[id].dCurrent - above * dist)];
      PassFromFrame(next, hand, i - 1, above + bs[id].w, dist, j);
    }
  }

  /** With no negative load and a move of non-negative length, wear only lowers
      durabilities, and the store stays well formed. */
  lemma {:induction false} PassFromLowers(bs: seq<Box>, hand: seq<int>, i: nat, above: int, dist: int)
    requires i <= |hand| && ValidIds(bs, hand) && WellFormed(bs)
    requires above >= 0 && dist >= 0
    ensures var r := PassFrom(bs, hand, i, above, dist);
      WellFormed(r) && forall j :: 0 <= j < |bs| ==> r[j].dCurrent <= bs[j].dCurrent
    decreases i
  {
    if i > 0 {
      var id := hand[i - 1];
      var next := bs[id := bs[id].(dCurrent := bs[id].dCurrent - above * dist)];
      assert above * dist >= 0;
      PassFromLowers(next, hand, i - 1, above + bs[id].w, dist);
    }
  }

  /** The closed form of one visited box: hand[k] loses the weight resting on it
      (`above` plus the boxes between it and position i) times `dist`. */
  lemma {:induction false} PassFromLoad(bs: seq<Box>, hand: seq<int>, i: nat, above: int, dist: int, k: nat)
    requires i <= |hand| && ValidIds(bs, hand) && Distinct(hand) && k < i
    ensures PassFrom(bs, hand, i, above, dist)[hand[k]].dCurrent
            == bs[hand[k]].dCurrent - (above + Load(bs, hand, k + 1, i)) * dist
    decreases i
  {
    var id := hand[i - 1];
    var next := bs[id := bs[id].(dCurrent := bs[id].dCurrent - above * dist)];
    if k == i - 1 {
      PassFromFrame(next, hand, i - 1, above + bs[id].w, dist, id);
    } else {
      PassFromLoad(next, hand, i - 1, above + bs[id].w, dist, k);
      assert hand[k] != id;
      PassFromLayout(bs, [id], 1, above, dist);
      LoadSameWeights(bs, next, hand, k + 1, i - 1);
    }
  }

  lemma WearRule(bs: seq<Box>, hand: seq<int>, dist: int, k: nat)
    requires ValidIds(bs, hand) && Distinct(hand) && k < |hand|
    ensures Pass(bs, hand, dist)[hand[k]].dCurrent
            == bs[hand[k]].dCurrent - Load(bs, hand, k + 1, |hand|) * dist
  {
    PassFromLoad(bs, hand, |hand|, 0, dist, k);
  }

  /** The top box of the stack bears no load and leaves the pass unchanged. */
  lemma WearTop(bs: seq<Box>, hand: seq<int>, dist: int)
    requires ValidIds(bs, hand) && Distinct(hand) && hand != []
    ensures Pass(bs, hand, dist)[hand[|hand| - 1]] == bs[hand[|hand| - 1]]
  {
    var t := |hand| - 1;
    PassFromLoad(bs, hand, |hand|, 0, dist, t);
    PassFromLayout(bs, hand, |hand|, 0, dist);
  }

  /** A pass changes nothing but the current durabilities of the held boxes. */
  lemma WearFrame(bs: seq<Box>, hand: seq<int>, dist: int)
    requires ValidIds(bs, hand)
    ensures SameLayout(bs, Pass(bs, hand, dist))
    ensures forall j :: 0 <= j < |bs| && j !in hand ==> Pass(bs, hand, dist)[j] == bs[j]
  {
    PassFromLayout(bs, hand, |hand|, 0, dist);
    forall j | 0 <= j < |bs| && j !in hand
      ensures Pass(bs, hand, dist)[j] == bs[j]
    {
      PassFromFrame(bs, hand, |hand|, 0, dist, j);
    }
  }

  /** A move of length zero wears nothing. */
  lemma {:induction false} PassZero(bs: seq<Box>, hand: seq<int>, i: nat, above: int)
    requires i <= |hand| && ValidIds(bs, hand)
    ensures PassFrom(bs, hand, i, above, 0) == bs
    decreases i
  {
    if i > 0 {
      var id := hand[i - 1];
      assert bs[id := bs[id].(dCurrent := bs[id].dCurrent - above * 0)] == bs;
      PassZero(bs, hand, i - 1, above + bs[id].w);
    }
  }

  // ---------------------------------------------------------------------------
  // Lemmas about the simulator

  /** A simulated round trip that succeeds ends with every box it ever held
      intact, and touches nothing but the durabilities of those boxes. */
  lemma {:induction false} SimulateOutcome(bs: seq<Box>, hand: seq<int>, r: int, c: int, plan: seq<int>)
    requires ValidIds(bs, hand) && ValidIds(bs, plan)
    requires Simulate(bs, hand, r, c, plan).Some?
    ensures var f := Simulate(bs, hand, r, c, plan).value;
      SameLayout(bs, f) && ValidIds(f, hand + plan) && AllAlive(f, hand + plan) &&
      forall j :: 0 <= j < |bs| && j !in hand && j !in plan ==> f[j] == bs[j]
    decreases |plan|
  {
    var f := Simulate(bs, hand, r, c, plan).value;
    if plan == [] {
      WearFrame(bs, hand, Dist(r, c, 0, 0));
      assert hand + plan == hand;
    } else {
      var next := bs[plan[0]];
      var after := Pass(bs, hand, Dist(r, c, next.r, next.c));
      WearFrame(bs, hand, Dist(r, c, next.r, next.c));
      SimulateOutcome(after, hand + [plan[0]], next.r, next.c, plan[1..]);
      assert (hand + [plan[0]]) + plan[1..] == hand + plan;
      forall j | 0 <= j < |bs| && j !in hand && j !in plan
        ensures f[j] == bs[j]
      {
        assert j !in hand + [plan[0]];
      }
    }
  }

  /** A box can make a trip on its own exactly when it is still intact: on the
      way out nothing is held, on the way back it is the (unloaded) top box. */
  lemma SoloFeasible(bs: seq<Box>, id: int)
    requires 0 <= id < |bs|
    ensures Feasible(bs, [id]) <==> bs[id].dCurrent > 0
  {
    var b := bs[id];
    var after := Pass(bs, [], Dist(0, 0, b.r, b.c));
    assert after == bs;
    assert AllAlive(after, []);
    assert [] + [id] == [id] && [id][1..] == [];
    assert Simulate(bs, [], 0, 0, [id]) == Simulate(bs, [id], b.r, b.c, []);
    var home := Pass(bs, [id], Dist(b.r, b.c, 0, 0));
    WearTop(bs, [id], Dist(b.r, b.c, 0, 0));
    assert home[id] == b;
    assert AllAlive(home, [id]) <==> b.dCurrent > 0;
  }

  /** Two boxes in row 0: a light fragile one at column 1 and a heavy sturdy
      one at column 2. */
  function TwoBoxes(): (bs: seq<Box>)
  {
    [Box(0, 0, 1, 1, 1, 1), Box(1, 0, 2, 5, 100, 100)]
  }

  /** Feasibility depends on the pickup order: a light fragile box must not sit
      under a heavy one on the long way home, but may ride on top of it. */
  lemma OrderMatters()
    ensures Feasible(TwoBoxes(), [1, 0]) && !Feasible(TwoBoxes(), [0, 1])
  {
    HeavyOnTop();
    LightOnTop();
  }

  /** [0, 1]: box 0 is under box 1 (weight 5) for the 2 steps home. */
  lemma HeavyOnTop()
    ensures !Feasible(TwoBoxes(), [0, 1])
  {
    var bs := TwoBoxes();
    var a1 := Pass(bs, [0], Dist(0, 1, 0, 2));
    assert a1 == bs;
    var a2 := Pass(a1, [0, 1], Dist(0, 2, 0, 0));
    assert a2[0].dCurrent == 1 - 5 * 2;
  }

  /** [1, 0]: box 1 carries box 0 (weight 1) for the single step home. */
  lemma LightOnTop()
    ensures Feasible(TwoBoxes(), [1, 0])
  {
    var bs := TwoBoxes();
    var b1 := Pass(bs, [1], Dist(0, 2, 0, 1));
    assert b1 == bs;
    var b2 := Pass(b1, [1, 0], Dist(0, 1, 0, 0));
    assert b2[1].dCurrent == 100 - 1 && b2[0].dCurrent == 1;
  }

  lemma MulMonotone(a: int, x: int, y: int)
    requires a >= 0 && x <= y
    ensures a * x <= a * y
  {
    assert a * y - a * x == a * (y - x);
  }

  /** The box at index k of `hand` wears at least as much on a way home of
      length d1 + d2 >= d0 that takes on x after d1 as on the straight way d0. */
  lemma DetourWearsMore(bs: seq<Box>, hand: seq<int>, x: int, k: nat, d0: nat, d1: nat, d2: nat)
    requires WellFormed(bs) && ValidIds(bs, hand) && 0 <= x < |bs| && k < |hand|
    requires Distinct(hand + [x]) && d0 <= d1 + d2
    ensures Pass(Pass(bs, hand, d1), hand + [x], d2)[hand[k]].dCurrent
            <= Pass(bs, hand, d0)[hand[k]].dCurrent
  {
    var hx := hand + [x];
    var after := Pass(bs, hand, d1);
    assert Distinct(hand) by {
      forall a, b | 0 <= a < b < |hand| ensures hand[a] != hand[b] {
        assert hx[a] == hand[a] && hx[b] == hand[b];
      }
    }
    WearFrame(bs, hand, d1);
    WearRule(bs, hand, d0, k);
    WearRule(bs, hand, d1, k);
    WearRule(after, hx, d2, k);
    LoadNonNegative(bs, hand, k + 1, |hand|);
    LoadSameWeights(bs, after, hand, k + 1, |hand|);
    LoadPush(after, hand, x, k + 1, |hand|);
    assert hx[k] == hand[k] && hx[|hand|] == x;
    var s := Load(bs, hand, k + 1, |hand|);
    assert Load(after, hx, k + 1, |hx|) == s + bs[x].w;
    var v := bs[hand[k]].dCurrent;
    assert after[hand[k]].dCurrent == v - s * d1;
    DetourArith(v, s, bs[x].w, d0, d1, d2);
  }

  lemma DetourArith(v: int, s: int, w: int, d0: int, d1: int, d2: int)
    requires s >= 0 && w >= 0 && d2 >= 0 && d0 <= d1 + d2
    ensures (v - s * d1) - (s + w) * d2 <= v - s * d0
  {
    MulMonotone(s, d0, d1 + d2);
    MulMonotone(w, 0, d2);
    assert (s + w) * d2 == s * d2 + w * d2;
    assert s * (d1 + d2) == s * d1 + s * d2;
  }

  /** One box more never rescues a plan: if the plan extended by x survives the
      simulation, so does the plan without x, because the boxes already held
      bear at least as much load over at least as long a way home. */
  lemma {:induction false} ExtensionNeedsPrefix(bs: seq<Box>, hand: seq<int>, r: int, c: int, plan: seq<int>, x: int)
    requires WellFormed(bs) && ValidIds(bs, hand) && ValidIds(bs, plan) && 0 <= x < |bs|
    requires Distinct(hand + plan + [x])
    requires Simulate(bs, hand, r, c, plan + [x]).Some?
    ensures Simulate(bs, hand, r, c, plan).Some?
    decreases |plan|
  {
    if plan == [] {
      assert plan + [x] == [x] && [x][1..] == [];
      assert hand + plan + [x] == hand + [x];
      var bx := bs[x];
      var after := Pass(bs, hand, Dist(r, c, bx.r, bx.c));
      var final := Pass(after, hand + [x], Dist(bx.r, bx.c, 0, 0));
      assert AllAlive(final, hand + [x]);
      var d0, d1, d2 := Dist(r, c, 0, 0), Dist(r, c, bx.r, bx.c), Dist(bx.r, bx.c, 0, 0);
      assert d0 <= d1 + d2;
      forall k | 0 <= k < |hand|
        ensures Pass(bs, hand, d0)[hand[k]].dCurrent > 0
      {
        DetourWearsMore(bs, hand, x, k, d0, d1, d2);
        assert (hand + [x])[k] == hand[k];
      }
    } else {
      var next := bs[plan[0]];
      var after := Pass(bs, hand, Dist(r, c, next.r, next.c));
      assert (plan + [x])[0] == plan[0] && (plan + [x])[1..] == plan[1..] + [x];
      PassFromLowers(bs, hand, |hand|, 0, Dist(r, c, next.r, next.c));
      assert (hand + [plan[0]]) + plan[1..] + [x] == hand + plan + [x];
      ExtensionNeedsPrefix(after, hand + [plan[0]], next.r, next.c, plan[1..], x);
    }
  }

  /** Prefix closure of feasibility, for the plans the planner grows. */
  lemma FeasiblePrefix(bs: seq<Box>, plan: seq<int>, x: int)
    requires WellFormed(bs) && Distinct(plan + [x])
    requires Feasible(bs, plan + [x])
    ensures Feasible(bs, plan)
  {
    assert ValidIds(bs, plan) by {
      forall k | 0 <= k < |plan| ensures 0 <= plan[k] < |bs| {
        assert (plan + [x])[k] == plan[k];
      }
    }
    assert (plan + [x])[|plan|] == x;
    assert [] + plan + [x] == plan + [x];
    ExtensionNeedsPrefix(bs, [], 0, 0, plan, x);
  }
}
