# Box transport planner — a verified model

The planner computes the action log (moves U, D, L, R and pickups `1`) for one
agent on a square grid. Each cell holds at most one box, and each box has a
weight and a durability. The agent starts at the origin and stacks the boxes it
picks; the last one picked is on top. A move of Manhattan length `d` costs each
held box `d` times the combined weight of the boxes above it. A box at
durability `<= 0` is crushed. The planner works in transport cycles:
- it builds a plan greedily, appending the pending box of lowest score
  `dist / weight` as long as a simulated round trip says the plan crushes
  nothing;
- it carries the plan out;
- it brings the boxes home to the origin.

The model follows the `Solver` class of `Main.java`:

- `physics.dfy` (module `Physics`) holds the state as values: `Box` and the wear pass.
  - `PassFrom` and `Pass` are the wear pass, top down, in the order the loops run it.
  - `Simulate` and `Feasible` are the simulated round trip.
  - Their lemmas: the closed form of the wear each box takes (`WearRule`), the
    frame of a pass, single-box feasibility, and a proof that one more box never
    rescues a plan (`ExtensionNeedsPrefix`).
- `registry.dfy` (module `Registry`) gives the row-major numbering of boxes the
  constructor produces (`IdAt`).
- `tokens.dfy` (module `Tokens`) defines the action tokens and their meaning:
  `Walk` gives the position after a log, `CountPicks` its pickups, and
  `TripTokens` the log of a whole trip.
- `greedy.dfy` (module `Greedy`) states what the greedy planner promises:
  - `Beats` compares scores exactly;
  - `FirstBest` is one greedy choice;
  - `GreedyChain` says every box of a plan was the greedy choice for the plan before it.
- `transport.dfy` (module `Transport`) holds the class `Solver`: position, hand,
  action log, box store, an `array2` grid, and the crash-report flag.
  - Its methods mirror the constructor, `isPlanFeasible`, the planning loop, the
    fallback, the executor loop, `moveTo`, `pick` and `solve`.
  - `Turn`, `History` and `Trips` describe a whole run as the list of stores,
    plans and pending sets of its cycles, and the log those plans produce.
  - Each of them is proved against the functions above.

## Model

| member | source | states |
|---|---|---|
| Transport.Solver.constructor | Main.java:94-116 | The agent starts at the origin with an empty hand and log. There is one box per positive-weight cell, numbered in row-major order, with weight and both durabilities from the input. The grid holds each box's id and -1 elsewhere. |
| Transport.RegisterBox | Main.java:106-110 | Scanning a cell of positive weight appends a box with the next id and keeps the registry invariant. |
| Transport.RegisterNone | Main.java:111-113 | Scanning a cell without a box leaves the registry as it is. |
| Transport.RegisterRow | Main.java:104-105 | Finishing a row of the scan is starting the next. |
| Transport.RegisterDone | Main.java:103-115 | The finished registry has id == index and positive weights, lies on the grid, and has one box per cell. Each box carries its cell's id, weight and durability. |
| Registry.IdAt | Main.java:103-113 | A cell's id is non-negative exactly when its weight is positive, and -1 otherwise. |
| Registry.IdsIncrease | Main.java:103-110 | The ids follow row-major order strictly, so no two boxes share an id. |
| Registry.IdInRange | Main.java:103-113 | A box cell gets an id in 0 .. count-1; every other cell gets -1. |
| Physics.PassFrom | Main.java:277-289 | The simulator's top-down wear pass over the lower part of the stack; it keeps the store's size (its effect is stated by the lemmas below). |
| Physics.Pass | Main.java:335-346 | A whole wear pass for a move of a given length; it keeps the store's size. |
| Physics.Simulate | Main.java:253-311 | The simulated round trip: None once a leg leaves a held box at durability <= 0, otherwise the final store, which has as many boxes as the start. |
| Physics.Feasible | Main.java:253-312 | A plan is feasible when its simulated round trip from the origin crushes nothing; the empty plan always is. |
| Physics.PassFromLayout | Main.java:277-289 | A wear pass changes nothing but current durabilities. |
| Physics.PassFromFrame | Main.java:277-289 | A wear pass leaves every box outside the visited part of the stack alone. |
| Physics.PassFromLowers | Main.java:277-289 | With non-negative load and distance, wear only lowers durabilities and keeps the store well formed. |
| Physics.PassFromLoad | Main.java:277-289 | Each visited box loses (weight resting on the top + weight of the boxes between it and the top) times the distance. |
| Physics.WearRule | Main.java:335-346 | In a whole pass, box hand[k] loses exactly the weight of hand[k+1..] times the distance. |
| Physics.WearTop | Main.java:335-346 | The top box of the stack bears no load and is unchanged by a pass. |
| Physics.WearFrame | Main.java:335-346 | A pass keeps the layout and leaves every box not held unchanged. |
| Physics.PassZero | Main.java:323-324 | A move of length zero wears nothing. |
| Physics.SimulateOutcome | Main.java:268-311 | A successful simulated round trip leaves every box it held intact and every other box unchanged. |
| Physics.SoloFeasible | Main.java:253-312 | A single-box plan is feasible exactly when that box's current durability is positive. |
| Physics.HeavyOnTop | Main.java:298-309 | A concrete light box carried under a heavy one on the way home is crushed. |
| Physics.LightOnTop | Main.java:298-309 | The same two boxes in the other order make the trip. |
| Physics.OrderMatters | Main.java:253-312 | Feasibility depends on pickup order, on a concrete two-box instance. |
| Tokens.OneBoxAtOrigin | Main.java:231-237 | A single box on the origin cell is fetched by one pickup token and no move, and that plan is feasible. |
| Physics.DetourWearsMore | Main.java:271-309 | Taking one more box on a way home at least as long wears every box below it at least as much. |
| Physics.ExtensionNeedsPrefix | Main.java:268-309 | If a plan extended by one box survives the simulation from any state, so does the plan itself. |
| Physics.FeasiblePrefix | Main.java:253-312 | Feasibility is closed under dropping the last box of a duplicate-free plan (used by `Greedy.StopIsFinal`). |
| Transport.PassDownStep | Main.java:277-289 | Wearing the next box down advances the top-down pass and keeps the liveness test of the boxes done so far. |
| Transport.PassDownDone | Main.java:277-289 | A finished top-down pass has produced exactly the whole pass and its liveness verdict. |
| Transport.SimulatedPass | Main.java:274-289 | The simulator's pass answers whether no held box ends at durability <= 0. A positive answer comes with exactly the wear pass. |
| Transport.SimulateLeg | Main.java:268-294 | One leg of the simulator's loop: None when the leg crushes a held box; otherwise the outcome of the rest of the plan after the pickup. |
| Transport.SimulateHome | Main.java:296-309 | The last leg home gives the final store, or None when it crushes a held box. |
| Transport.Solver.IsPlanFeasible | Main.java:253-312 | The answer equals `Feasible` of the plan on the current store (true for the empty plan), and nothing is changed. |
| Transport.Solver.SelectNext | Main.java:160-184 | Returns -1 exactly when no candidate extends the plan feasibly. Otherwise the result is a feasible candidate no feasible candidate beats, and it strictly beats every feasible candidate of smaller id. |
| Greedy.BeatsChain | Main.java:176-181 | Score comparison is transitive across a score that is not lower. |
| Greedy.FirstBestUnique | Main.java:161-184 | The greedy choice is unique. |
| Greedy.Ids | Main.java:124 | The id set of a registry of m boxes is 0 .. m-1 and has m elements. |
| Greedy.ChainShared | Main.java:186-188 | The choices already made in a greedy plan stay greedy in any plan that extends it. |
| Greedy.ChainPick | Main.java:152-188 | Each box of a greedy plan was pending and not yet in the plan when it was chosen. |
| Greedy.GreedyChainDistinct | Main.java:152-188 | A greedy plan never repeats a box and holds only pending boxes. |
| Greedy.GreedyChainExtend | Main.java:186-188 | Appending the greedy choice to a greedy plan gives a greedy plan. |
| Greedy.ChainStep | Main.java:186-188 | Appending the greedy choice keeps the plan duplicate-free, drawn from the pending set, feasible and greedy, and shrinks the candidates. |
| Transport.Solver.PlanCycle | Main.java:136-193 | The plan is duplicate-free, drawn from the pending set, feasible and built greedily from the agent's position. When it stops, no remaining candidate extends it feasibly. |
| Greedy.StopIsFinal | Main.java:186-192 | Once no candidate extends the plan feasibly, no longer duplicate-free plan through any of them is feasible either, so the planner's stop loses nothing. |
| Greedy.EmptyCycle | Main.java:195-221 | A finished greedy plan is empty exactly when every pending box is already crushed, so the single-box fallback never finds a box. |
| Tokens.Moves | Main.java:320-332 | The tokens of a move by (dr, dc), vertical first: Manhattan-many of them. |
| Tokens.TripTokens | Main.java:231-237 | The log of a whole trip: to each planned box and a pickup, then home; at least one token per planned box. |
| Tokens.MovesReachTarget | Main.java:320-332 | The recorded moves for (dr, dc) are Manhattan-many, contain no pickup, and take the agent from p to p + (dr, dc). |
| Tokens.LegTokens | Main.java:233-234 | One leg's moves and pickup reach the box and pick exactly once. |
| Tokens.TripReturnsHome | Main.java:231-237 | A whole trip's log returns the agent to the origin and holds one pickup per planned box. |
| Transport.Solver.RecordMoves | Main.java:328-332 | The log grows by exactly |dr| vertical tokens, then |dc| horizontal ones, in the right directions. |
| Transport.Solver.WearHand | Main.java:335-346 | The live store becomes the wear pass of the old store. The crash flag is raised exactly when a held box is left at durability <= 0. |
| Transport.Solver.MoveTo | Main.java:319-350 | The agent ends at the target with the same hand. The log grows by the move tokens and the live boxes take exactly the wear pass for the move's length. It does nothing for a zero-length move, and the flag records a crush. |
| Transport.Solver.Pick | Main.java:356-359 | The box goes on top of the hand and a pickup token is logged; nothing else changes. |
| Transport.Solver.FetchBox | Main.java:232-235 | The agent walks to the box, wearing the hand, and picks it; only its cell is cleared in the grid. |
| Transport.ProgressNext | Main.java:231-232 | The next box of a duplicate-free plan in progress is not on the hand yet. |
| Transport.StepSimulated | Main.java:232-234 | One executed leg matches the simulator's leg and crushes nothing. |
| Transport.StepTrip | Main.java:233-234 | The leg just recorded is the head of the trip still due. |
| Transport.ProgressStep | Main.java:231-236 | After one executed leg and pickup the executor is one box further in step with the simulator. No held box is crushed. |
| Transport.Solver.ExecuteNext | Main.java:231-236 | One executor turn puts the plan's next box on top of the hand, leaves the agent on its cell and wears the hand by the walk there. It keeps the executor in step with the simulator and clears exactly the box's cell. |
| Transport.ProgressDone | Main.java:237 | With the whole plan on the hand, the walk home crushes nothing, ends in the simulator's final store, and completes the trip log. |
| Transport.Solver.ReturnHome | Main.java:237 | The agent is back at the origin with the plan on the hand. The live store equals the simulator's final store of the plan. |
| Transport.Solver.ExecutePlan | Main.java:231-237 | Executing a feasible plan ends exactly in the simulator's final store, with no crash report. The log grows by the plan's trip, and exactly the plan's cells are cleared in the grid. |
| Transport.Solver.RunCycle | Main.java:127-237 | A cycle is stuck only when every pending box is crushed, and then it changes nothing but emptying the hand. Otherwise it commits a non-empty greedy plan of pending boxes, which no remaining candidate extends. It carries the plan out as the simulator predicts, ending with the plan on the hand. |
| Transport.OutcomeOfPlan | Main.java:231-237 | A delivered plan leaves its boxes intact and every other box untouched. |
| Transport.LogAppendTrip | Main.java:231-237 | Appending a trip to a log that returns home keeps it returning home with |plan| more pickups. |
| Transport.DeliveredGrow | Main.java:240 | Removing a delivered plan from the pending set moves exactly its ids and shrinks the set by its length. |
| Greedy.PendingShrinks | Main.java:240 | Removing a duplicate-free plan of pending ids shrinks the pending set by its length. |
| Transport.DeliveredBoxes | Main.java:231-240 | After a delivery the pending boxes are untouched and the delivered ones intact. |
| Transport.DeliveredCells | Main.java:235-240 | The cleared cells are exactly the cells of the delivered boxes. |
| Transport.DeliveredLog | Main.java:231-240 | The log still returns home with one pickup per delivered box. |
| Transport.DeliveryStart | Main.java:124 | Before the first cycle nothing is delivered and every box is pending. |
| Transport.DeliveryStep | Main.java:127-240 | Delivering a non-empty feasible plan of pending boxes keeps the delivery record and shrinks the pending set. |
| Transport.Solver.DeliverNext | Main.java:127-240 | One turn of the main loop either is stuck, or delivers a plan. When stuck, every pending box is crushed, and boxes, log, pending set and record are unchanged; only the hand is emptied. Otherwise it delivers a non-empty greedy plan of pending boxes, which no remaining candidate extends. The pending set loses exactly the plan's ids, shrinking by its length, and the log grows by exactly the plan's trip. The live store becomes the simulator's final store, and the delivery record is kept. |
| Transport.TripsExtend | Main.java:231-237 | Recording one more cycle appends exactly its plan's trip to the log of the run. |
| Transport.HistoryExtend | Main.java:127-240 | Recording one more greedy, delivered cycle extends the history of the run. |
| Transport.RecordStep | Main.java:127-240 | A delivered cycle extends the record of the run: its store, plan, pending set and trip are appended. |
| Transport.Solver.Cycle | Main.java:127-240 | One turn of the main loop, recorded: it either is stuck, changing nothing but emptying the hand, or appends the delivered cycle to the run's record with its plan on the hand and fewer boxes pending. |
| Transport.Solver.DeliverAll | Main.java:127-240 | The loop runs until no box is pending or a cycle is stuck. Its record starts with every box pending and ends in the live store, and the log grows by the trips of the recorded plans. |
| Transport.DeliveryDone | Main.java:122-241 | A finished run's record gives Solve's guarantees. |
| Transport.Solver.Solve | Main.java:122-241 | The run is a sequence of cycles, each starting from the store the last one left. Each commits a non-empty greedy plan of the pending boxes, which no remaining candidate extends, and delivers it as the simulator predicts. The pending set loses the plan's ids, and the log grows by exactly the trips of those plans. The hand ends holding the last plan, empty when stuck, and untouched when there are no boxes. The run ends with every box delivered, or with every pending box crushed from the start. Delivered boxes are intact and pending ones untouched. The new log walks from the origin back to it with one pickup per delivered box. No real move crushes a box. The grid shows exactly the delivered cells empty. |

## Left out

- Reading the input (`Main.main`, Main.java:16-44) and printing the log (Main.java:244) are I/O. The constructor takes the matrices as sequences, and the log stays in the `actions` field as a sequence of tokens instead of a `StringBuilder` of lines.
- The warnings `moveTo` and the fallback write to standard error are not modelled as output. The one in `moveTo` (a held box crushed by a real move) becomes the `crushReported` flag. The contracts prove it is never raised.
- Transport.Solver.SelectNext: the source compares the scores `dist / w` as doubles starting from `Double.MAX_VALUE`. The model compares them by exact cross-multiplication with positive weights. For distances and weights of the sizes the grid allows, the correctly rounded quotients order like the exact ones.
- Transport.Solver.SelectNext: candidates are examined in ascending id, so of two candidates with equal score the lower id wins. The source iterates `new HashSet<>(remainingBoxIds)` (Main.java:152), whose table is sized by the number of pending boxes (at least 16 buckets), and a small integer key sits in bucket id mod table size. Its order is ascending only while every candidate id is below the table size. In later cycles, with few boxes pending, it is not: pending {5, 20, 37} in 16 buckets are visited 20, 5, 37. Equal scores can then be broken differently from `FirstBest`.
- Transport.Solver.IsPlanFeasible: requires a duplicate-free plan. Every call in the source passes one.
- Transport.Solver.Solve: requires the agent at the origin, where the constructor puts it. With that, the cycle's opening `moveTo(0, 0)` is a null move.
- Transport.Solver.Pick: takes the box's id instead of the `Box` object. The hand holds ids into the store, so the live boxes the hand and the registry share (Java aliasing) are one entry of `boxes`.
- Java's fixed-width `int`/`long` arithmetic is not modelled. Durabilities and loads are unbounded integers (the source keeps them in `long`, which the grid's sizes cannot overflow).
- The fallback (Main.java:195-221) and the empty-plan check (Main.java:225-228) are modelled as written in `RunCycle`. `Greedy.EmptyCycle` shows that the fallback can only find nothing, since it repeats the greedy's first step.
