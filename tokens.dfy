/** The action tokens the executor records, and what they mean for the agent's
    position. */
module Tokens {
  import opened Physics

  /** U, D, L, R move one cell up (row - 1), down (row + 1), left (column - 1)
      and right (column + 1); PickUp is the token `1`, which takes the box of the
      current cell onto the top of the hand. */
  datatype Token = U | D | L | R | PickUp

  /** k copies of the token t. */
  function Repeat(t: Token, k: nat): (s: seq<Token>)
    ensures |s| == k
  {
    if k == 0 then [] else Repeat(t, k - 1) + [t]
  }

  /** What the executor emits for a move by (dr, dc): all vertical steps first,
      then all horizontal ones. */
  function Moves(dr: int, dc: int): (ts: seq<Token>)
    ensures |ts| == Abs(dr) + Abs(dc)
  {
    Repeat(if dr > 0 then D else U, Abs(dr)) + Repeat(if dc > 0 then R else L, Abs(dc))
  }

  /** The position after one token. */
  function Step(p: (int, int), t: Token): (q: (int, int))
  {
    match t
    case U => (p.0 - 1, p.1)
    case D => (p.0 + 1, p.1)
    case L => (p.0, p.1 - 1)
    case R => (p.0, p.1 + 1)
    case PickUp => p
  }

  /** The position after a run of tokens. */
  function Walk(p: (int, int), ts: seq<Token>): (q: (int, int))
    decreases |ts|
  {
    if ts == [] then p else Walk(Step(p, ts[0]), ts[1..])
  }

  function CountPicks(ts: seq<Token>): (picks: nat)
    decreases |ts|
  {
    if ts == [] then 0 else (if ts[0] == PickUp then 1 else 0) + CountPicks(ts[1..])
  }

  /** The tokens of a whole trip from (r, c): to each box of the plan in turn,
      picking it, then back to the origin. */
  function TripTokens(bs: seq<Box>, r: int, c: int, plan: seq<int>): (ts: seq<Token>)
    requires ValidIds(bs, plan)
    ensures |ts| >= |plan|
    decreases |plan|
  {
    if plan == [] then Moves(0 - r, 0 - c)
    else
      var b := bs[plan[0]];
      Moves(b.r - r, b.c - c) + [PickUp] + TripTokens(bs, b.r, b.c, plan[1..])
  }

  /** One box on the origin cell: the trip that fetches it is a single pickup
      with no move, and it is feasible. */
  lemma OneBoxAtOrigin()
    ensures TripTokens([Box(0, 0, 0, 1, 1000, 1000)], 0, 0, [0]) == [PickUp]
    ensures Feasible([Box(0, 0, 0, 1, 1000, 1000)], [0])
  {
    var bs := [Box(0, 0, 0, 1, 1000, 1000)];
    assert Moves(0, 0) == [];
    assert [0][1..] == [];
    assert TripTokens(bs, 0, 0, [0]) == Moves(0, 0) + [PickUp] + TripTokens(bs, 0, 0, []);
    SoloFeasible(bs, 0);
  }

  lemma AppendAssoc(a: seq<Token>, b: seq<Token>, c: seq<Token>)
    ensures (a + b) + c == a + (b + c)
  {
  }

  lemma {:induction false} WalkConcat(p: (int, int), a: seq<Token>, b: seq<Token>)
    ensures Walk(p, a + b) == Walk(Walk(p, a), b)
    ensures CountPicks(a + b) == CountPicks(a) + CountPicks(b)
    decreases |a|
  {
    if a != [] {
      assert (a + b)[0] == a[0] && (a + b)[1..] == a[1..] + b;
      WalkConcat(Step(p, a[0]), a[1..], b);
    } else {
      assert a + b == b;
    }
  }

  /** k copies of one move token shift the position by k in that direction. */
  lemma {:induction false} WalkRepeat(p: (int, int), t: Token, k: nat)
    requires t != PickUp
    ensures Walk(p, Repeat(t, k)) == match t
      case U => (p.0 - k, p.1)
      case D => (p.0 + k, p.1)
      case L => (p.0, p.1 - k)
      case R => (p.0, p.1 + k)
      case PickUp => p
    ensures CountPicks(Repeat(t, k)) == 0
    decreases k
  {
    if k > 0 {
      WalkRepeat(p, t, k - 1);
      WalkConcat(p, Repeat(t, k - 1), [t]);
      assert [t][1..] == [];
    }
  }

  /** The move tokens for (dr, dc) are exactly Manhattan-many, contain no pickup,
      and take the agent from p to p + (dr, dc). */
  lemma MovesReachTarget(p: (int, int), dr: int, dc: int)
    ensures |Moves(dr, dc)| == Abs(dr) + Abs(dc)
    ensures Walk(p, Moves(dr, dc)) == (p.0 + dr, p.1 + dc)
    ensures CountPicks(Moves(dr, dc)) == 0
  {
    var vt := if dr > 0 then D else U;
    var ht := if dc > 0 then R else L;
    WalkConcat(p, Repeat(vt, Abs(dr)), Repeat(ht, Abs(dc)));
    WalkRepeat(p, vt, Abs(dr));
    WalkRepeat((p.0 + dr, p.1), ht, Abs(dc));
  }

  /** One leg of a trip, the moves by (dr, dc) and a pickup, takes the agent
      from p to p + (dr, dc) and picks exactly one box. */
  lemma LegTokens(p: (int, int), dr: int, dc: int)
    ensures Walk(p, Moves(dr, dc) + [PickUp]) == (p.0 + dr, p.1 + dc)
    ensures CountPicks(Moves(dr, dc) + [PickUp]) == 1
  {
    MovesReachTarget(p, dr, dc);
    WalkConcat(p, Moves(dr, dc), [PickUp]);
    assert [PickUp][1..] == [];
  }

  /** A whole trip brings the agent back to the origin and picks up exactly the
      boxes of the plan, one token each. */
  lemma {:induction false} TripReturnsHome(bs: seq<Box>, r: int, c: int, plan: seq<int>)
    requires ValidIds(bs, plan)
    ensures Walk((r, c), TripTokens(bs, r, c, plan)) == (0, 0)
    ensures CountPicks(TripTokens(bs, r, c, plan)) == |plan|
    decreases |plan|
  {
    if plan == [] {
      MovesReachTarget((r, c), 0 - r, 0 - c);
    } else {
      var b := bs[plan[0]];
      var leg := Moves(b.r - r, b.c - c) + [PickUp];
      LegTokens((r, c), b.r - r, b.c - c);
      WalkConcat((r, c), leg, TripTokens(bs, b.r, b.c, plan[1..]));
      TripReturnsHome(bs, b.r, b.c, plan[1..]);
    }
  }
}
