/** What the greedy trip planner promises of each box it appends to a plan. The
    source scores a candidate by the quotient dist / w (a double) and keeps the
    strictly smallest; here the quotients are compared by cross-multiplication,
    which is exact because every weight is positive. */
module Greedy {
  import opened Physics

  function Elems(s: seq<int>): (e: set<int>)
  {
    set x | x in s
  }

  /** The ids of a registry of m boxes. */
  function Ids(m: nat): (s: set<int>)
    ensures forall k :: k in s <==> 0 <= k < m
    ensures |s| == m
  {
    if m == 0 then {} else Ids(m - 1) + {m - 1}
  }

  /** Where the next leg of a plan starts: the agent's position (px, py) for an
      empty plan, otherwise the cell of the last box of the plan. */
  function Anchor(bs: seq<Box>, plan: seq<int>, px: int, py: int): (from: (int, int))
    requires ValidIds(bs, plan)
  {
    if plan == [] then (px, py)
    else (bs[plan[|plan| - 1]].r, bs[plan[|plan| - 1]].c)
  }

  /** Box a has a strictly lower score dist / w, measured from `from`, than box b. */
  predicate Beats(bs: seq<Box>, from: (int, int), a: int, b: int)
  {
    0 <= a < |bs| && 0 <= b < |bs| &&
    Dist(bs[a].r, bs[a].c, from.0, from.1) * bs[b].w < Dist(bs[b].r, bs[b].c, from.0, from.1) * bs[a].w
  }

  /** No candidate extends the plan feasibly. */
  predicate NoneFeasible(bs: seq<Box>, cands: set<int>, plan: seq<int>)
  {
    forall c :: c in cands ==> !Feasible(bs, plan + [c])
  }

  /** `best` is the choice of one greedy step: a candidate that extends the plan
      feasibly, whose score no feasible candidate beats, and which strictly
      beats every feasible candidate of smaller id (candidates are examined in
      ascending id, and only a strictly lower score replaces the one held). */
  predicate FirstBest(bs: seq<Box>, cands: set<int>, plan: seq<int>, from: (int, int), best: int)
  {
    best in cands && Feasible(bs, plan + [best]) &&
    (forall c :: c in cands && Feasible(bs, plan + [c]) ==> !Beats(bs, from, c, best)) &&
    (forall c :: c in cands && c < best && Feasible(bs, plan + [c]) ==> Beats(bs, from, best, c))
  }

  /** Every box of the plan was the greedy choice for the plan before it: chosen
      among the pending boxes not yet planned, measured from the end of that
      shorter plan (from the agent's position (px, py) for the first box). */
  predicate GreedyChain(bs: seq<Box>, remaining: set<int>, plan: seq<int>, px: int, py: int)
  {
    ValidIds(bs, plan) &&
    forall k :: 0 <= k < |plan| ==>
      FirstBest(bs, remaining - Elems(plan[..k]), plan[..k], Anchor(bs, plan[..k], px, py), plan[k])
  }

  /** Each box of a greedy plan was pending and not yet planned when chosen. */
  lemma ChainPick(bs: seq<Box>, remaining: set<int>, plan: seq<int>, px: int, py: int, k: nat)
    requires GreedyChain(bs, remaining, plan, px, py) && k < |plan|
    ensures plan[k] in remaining && plan[k] !in Elems(plan[..k])
  {
    assert FirstBest(bs, remaining - Elems(plan[..k]), plan[..k], Anchor(bs, plan[..k], px, py), plan[k]);
  }

  /** A greedy plan never repeats a box and draws only on the pending boxes. */
  lemma GreedyChainDistinct(bs: seq<Box>, remaining: set<int>, plan: seq<int>, px: int, py: int)
    requires GreedyChain(bs, remaining, plan, px, py)
    ensures Distinct(plan) && Elems(plan) <= remaining
  {
    forall a, b | 0 <= a < b < |plan|
      ensures plan[a] != plan[b]
    {
      assert plan[..b][a] == plan[a];
      ChainPick(bs, remaining, plan, px, py, b);
    }
    forall x | x in Elems(plan)
      ensures x in remaining
    {
      var k :| 0 <= k < |plan| && plan[k] == x;
      ChainPick(bs, remaining, plan, px, py, k);
    }
  }

  /** Appending the greedy choice for a greedy plan gives a greedy plan. */
  lemma GreedyChainExtend(bs: seq<Box>, remaining: set<int>, plan: seq<int>, px: int, py: int, best: int)
    requires GreedyChain(bs, remaining, plan, px, py)
    requires FirstBest(bs, remaining - Elems(plan), plan, Anchor(bs, plan, px, py), best)
    ensures GreedyChain(bs, remaining, plan + [best], px, py)
  {
    var next := plan + [best];
    assert Feasible(bs, next);
    assert next[..|plan|] == plan;
    forall k | 0 <= k < |next|
      ensures FirstBest(bs, remaining - Elems(next[..k]), next[..k], Anchor(bs, next[..k], px, py), next[k])
    {
      if k < |plan| {
        ChainShared(bs, remaining, plan, next, px, py, k);
      }
    }
  }

  /** The choices of a greedy plan stay greedy in any plan that extends it. */
  lemma ChainShared(bs: seq<Box>, remaining: set<int>, plan: seq<int>, next: seq<int>, px: int, py: int, k: nat)
    requires GreedyChain(bs, remaining, plan, px, py) && ValidIds(bs, next)
    requires k < |plan| <= |next| && next[..|plan|] == plan
    ensures FirstBest(bs, remaining - Elems(next[..k]), next[..k], Anchor(bs, next[..k], px, py), next[k])
  {
    assert next[..k] == plan[..k] && next[k] == plan[k];
  }

  lemma MulStrict(x: int, y: int, k: int)
    requires x < y && k > 0
    ensures x * k < y * k
  {
    assert y * k - x * k == (y - x) * k;
  }

  lemma MulWeak(x: int, y: int, k: int)
    requires x <= y && k > 0
    ensures x * k <= y * k
  {
    assert y * k - x * k == (y - x) * k;
  }

  /** a1/a2 < b1/b2 <= c1/c2 implies a1/a2 < c1/c2, for positive denominators. */
  lemma CrossLess(a1: int, a2: int, b1: int, b2: int, c1: int, c2: int)
    requires a2 > 0 && b2 > 0 && c2 > 0
    requires a1 * b2 < b1 * a2 && b1 * c2 <= c1 * b2
    ensures a1 * c2 < c1 * a2
  {
    MulStrict(a1 * b2, b1 * a2, c2);
    MulWeak(b1 * c2, c1 * b2, a2);
    assert (a1 * b2) * c2 == (a1 * c2) * b2;
    assert (b1 * a2) * c2 == (b1 * c2) * a2;
    assert (c1 * b2) * a2 == (c1 * a2) * b2;
    if a1 * c2 >= c1 * a2 {
      MulWeak(c1 * a2, a1 * c2, b2);
    }
  }

  /** Scores are ordered: a score below b's is below every score not below b's. */
  lemma BeatsChain(bs: seq<Box>, from: (int, int), a: int, b: int, c: int)
    requires WellFormed(bs) && 0 <= c < |bs|
    requires Beats(bs, from, a, b) && !Beats(bs, from, c, b)
    ensures Beats(bs, from, a, c)
  {
    CrossLess(Dist(bs[a].r, bs[a].c, from.0, from.1), bs[a].w,
              Dist(bs[b].r, bs[b].c, from.0, from.1), bs[b].w,
              Dist(bs[c].r, bs[c].c, from.0, from.1), bs[c].w);
  }

  /** The greedy choice is unique: two ids that both satisfy FirstBest are equal. */
  lemma FirstBestUnique(bs: seq<Box>, cands: set<int>, plan: seq<int>, from: (int, int), b1: int, b2: int)
    requires WellFormed(bs)
    requires FirstBest(bs, cands, plan, from, b1) && FirstBest(bs, cands, plan, from, b2)
    ensures b1 == b2
  {
  }

  lemma ElemsAppend(remaining: set<int>, plan: seq<int>, x: int)
    ensures Elems(plan + [x]) == Elems(plan) + {x}
    ensures remaining - Elems(plan + [x]) == (remaining - Elems(plan)) - {x}
  {
    assert forall y :: y in plan + [x] <==> y in plan || y == x;
  }

  /** How a plan splits at position t into what is done and what is left. */
  lemma SplitAt(plan: seq<int>, t: nat)
    requires t < |plan|
    ensures plan[t..][0] == plan[t] && plan[t..][1..] == plan[t + 1..]
    ensures plan[..t + 1] == plan[..t] + [plan[t]]
  {
  }

  /** One planning step: appending the greedy choice keeps the plan duplicate-free,
      drawn from the pending set, feasible and greedy, and shrinks what is left. */
  lemma ChainStep(bs: seq<Box>, remaining: set<int>, plan: seq<int>, px: int, py: int, best: int)
    requires Distinct(plan) && Elems(plan) <= remaining
    requires GreedyChain(bs, remaining, plan, px, py)
    requires FirstBest(bs, remaining - Elems(plan), plan, Anchor(bs, plan, px, py), best)
    ensures Distinct(plan + [best]) && Elems(plan + [best]) <= remaining && Feasible(bs, plan + [best])
    ensures GreedyChain(bs, remaining, plan + [best], px, py)
    ensures |remaining - Elems(plan + [best])| < |remaining - Elems(plan)|
  {
    GreedyChainExtend(bs, remaining, plan, px, py, best);
    ElemsAppend(remaining, plan, best);
    assert best !in plan;
  }

  /** The candidates left after a plan are the pending ids it does not hold. */
  lemma Unplanned(n: nat, remaining: set<int>, plan: seq<int>)
    requires forall x :: x in remaining ==> 0 <= x < n
    ensures forall c :: c in remaining - Elems(plan) ==> 0 <= c < n && c !in plan
  {
  }

  /** A greedy cycle that has stopped plans nothing exactly when every pending
      box is already crushed: a box at durability > 0 can always make a trip on
      its own, so the greedy's first step finds one. This is also why a
      single-box search over the pending boxes, run after an empty plan, can
      never find anything. */
  lemma EmptyCycle(bs: seq<Box>, remaining: set<int>, plan: seq<int>, px: int, py: int)
    requires forall x :: x in remaining ==> 0 <= x < |bs|
    requires GreedyChain(bs, remaining, plan, px, py)
    requires NoneFeasible(bs, remaining - Elems(plan), plan)
    ensures plan == [] <==> forall c :: c in remaining ==> bs[c].dCurrent <= 0
  {
    if plan == [] {
      forall c | c in remaining
        ensures bs[c].dCurrent <= 0
      {
        assert c in remaining - Elems(plan);
        assert plan + [c] == [c];
        SoloFeasible(bs, c);
      }
    } else {
      var first := plan[0];
      assert plan[..0] == [] && Elems(plan[..0]) == {};
      assert FirstBest(bs, remaining, [], Anchor(bs, [], px, py), first);
      assert [] + [first] == [first];
      SoloFeasible(bs, first);
    }
  }

  /** Stopping loses nothing: once no candidate extends the plan feasibly, no
      longer duplicate-free plan through any of them is feasible either, since
      feasibility is closed under dropping the last box. */
  lemma {:induction false} StopIsFinal(bs: seq<Box>, cands: set<int>, plan: seq<int>, c: int, tail: seq<int>)
    requires WellFormed(bs) && NoneFeasible(bs, cands, plan) && c in cands
    requires Distinct(plan + [c] + tail)
    ensures !Feasible(bs, plan + [c] + tail)
    decreases |tail|
  {
    if tail == [] {
      assert plan + [c] + tail == plan + [c];
    } else {
      var init, last := tail[..|tail| - 1], tail[|tail| - 1];
      var full := plan + [c] + tail;
      assert full == (plan + [c] + init) + [last];
      assert Distinct(plan + [c] + init) by {
        var pre := plan + [c] + init;
        forall a, b | 0 <= a < b < |pre| ensures pre[a] != pre[b] {
          assert pre[a] == full[a] && pre[b] == full[b];
        }
      }
      StopIsFinal(bs, cands, plan, c, init);
      if Feasible(bs, full) {
        FeasiblePrefix(bs, plan + [c] + init, last);
      }
    }
  }

  /** A committed plan shrinks the pending set by exactly its length. */
  lemma {:induction false} PendingShrinks(remaining: set<int>, plan: seq<int>)
    requires Distinct(plan) && Elems(plan) <= remaining
    ensures |remaining - Elems(plan)| == |remaining| - |plan|
    decreases |plan|
  {
    if plan != [] {
      var x := plan[0];
      var rest := plan[1..];
      assert Elems(plan) == {x} + Elems(rest);
      assert x !in Elems(rest) by {
        forall t | 0 <= t < |rest| ensures rest[t] != x {
          assert plan[t + 1] == rest[t];
        }
      }
      assert Distinct(rest) by {
        forall a, b | 0 <= a < b < |rest| ensures rest[a] != rest[b] {
          assert plan[a + 1] == rest[a] && plan[b + 1] == rest[b];
        }
      }
      PendingShrinks(remaining - {x}, rest);
      assert remaining - Elems(plan) == (remaining - {x}) - Elems(rest);
    }
  }
}
