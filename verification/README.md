# Pacman search agents: a verified Dafny model

This project models the two search engines of the pacai student code.

**Graph search** (`pacai/student/search.py`). `depthFirstSearch`, `breadthFirstSearch`, `uniformCostSearch` and `aStarSearch` share one loop:
- seed a frontier with the start state and no actions;
- pop an entry, and skip it if its state was visited;
- otherwise mark the state visited;
- if it is a goal, return its action list;
- otherwise push every unvisited successor with the action appended.

The four searches differ only in the frontier: a stack, a queue, a priority queue keyed by accumulated cost, or one keyed by accumulated cost plus heuristic. An exhausted frontier yields `[]`.

**Adversarial search** (`pacai/student/multiagents.py`). These are the recursive `minimax`, `alphaBeta` and `expectimax` of the three agents, and their root calls:
- agent 0 (Pacman) maximises;
- the ghosts minimise, or in expectimax average uniformly;
- the turn passes to `(agent + 1) % numAgents`, and depth drops by one only when it wraps back to Pacman;
- leaves are scored by an injected evaluation function.

Modules, leaf first:

| file | module | contents |
|---|---|---|
| `frontier.dfy` | `Frontier` | stack, queue and priority queue as sequences of keyed entries; which index each may pop |
| `search_problem.dfy` | `SearchProblem` | the problem interface (start, goal test, successor triples) and the `Leads` path relation |
| `graph_search.dfy` | `GraphSearch` | one loop iteration `Step`, the four strategies, keys, A* with a zero heuristic |
| `graph_search_invariants.dfy` | `GraphSearchInvariants` | the loop invariant and its preservation, including breadth-first and uniform-cost optimality |
| `searches.dfy` | `Searches` | the loop as a method, and the four searches |
| `ext_real.dfy` | `ExtReals` | reals extended with the two infinities used as sentinels |
| `game.dfy` | `Games` | the game interface, move lists without `Stop`, turn order and depth |
| `game_value.dfy` | `GameValues` | the depth-limited game value (max over children for Pacman, min for ghosts) |
| `minimax.dfy` | `MinimaxSearch` | `minimax` and the minimax agent's move |
| `alpha_beta.dfy` | `AlphaBetaSearch` | `alphaBeta`, its fail-soft correctness, and agreement with minimax at the root |
| `expectimax.dfy` | `ExpectimaxSearch` | `expectimax`, the expectimax value, and the expectimax agent's move |

Graph search is modelled as one pure iteration function, `Step`, and a `while` loop around it. `Step` may pop any index the frontier's discipline allows, so nothing depends on how the priority queue breaks ties. The loop method is `Searches.Search`. It pops the earliest entry of least key, which is one allowed choice.

Termination needs a finite graph. The caller passes a ghost set `states` that holds the start state and is closed under successors. The loop's measure is then (states not yet visited, frontier size).

The three game-tree searches are pure recursive functions over a `Game` value. Their measure is `(depth, numAgents - agent)`.

## Model

| member | source | states |
|---|---|---|
| Frontier.Push | pacai/student/search.py:44 | every container pushes at the back: the earlier entries stay in place, the new entry comes last, and the multiset gains exactly that entry |
| Frontier.Remove | pacai/student/search.py:32 | popping removes exactly the popped entry: the rest keep their order, and the multiset drops one copy of it |
| Frontier.PopIndex | pacai/student/search.py:30-32 | the next pop takes an index the frontier's discipline allows |
| Frontier.FirstLowest | pacai/student/search.py:82-83 | the priority queue's pop has a key no pending entry undercuts, and no earlier entry has that key |
| Frontier.StackIsLastInFirstOut | pacai/student/search.py:26-32 | a stack hands back the entry pushed last, and popping it undoes the push |
| Frontier.QueueIsFirstInFirstOut | pacai/student/search.py:52-57 | a queue hands back its oldest entry, and pushing commutes with popping a non-empty queue |
| SearchProblem.LeadsExtend | pacai/student/search.py:42-44 | appending a successor's action to a path from the start gives a path to that successor, at the summed cost |
| SearchProblem.LeadsLastStep | pacai/student/search.py:42-44 | a non-empty path from the start ends with a successor transition, taking its last action, out of a state that the path without its last action reaches at the cost less that step's cost |
| SearchProblem.LeadsCostNonnegative | pacai/student/search.py:93-96 | path costs are sums of non-negative step costs, so they are non-negative |
| SearchProblem.ClosedSetHoldsReachable | pacai/student/search.py:42-44 | a set closed under successors holds every state reachable from its members |
| GraphSearch.Key | pacai/student/search.py:121-124 | the priority an entry is pushed with: under uniform-cost search the accumulated cost, the weight minimised at each pop (lines 95-96); under A* that cost plus the heuristic estimate of the entry's state |
| GraphSearch.Root | pacai/student/search.py:27 | the start node holds the start state and no actions, and its empty action list leads from the start to the start |
| GraphSearch.Start | pacai/student/search.py:26-28 | the loop begins with nothing visited or expanded and a single pending entry, the start node under its strategy's key, which every discipline pops first |
| GraphSearch.Pushes | pacai/student/search.py:42-44 | every pushed entry is the child of a successor transition into an unvisited state, with the action appended and the strategy's key |
| GraphSearch.PushesEveryUnvisited | pacai/student/search.py:42-44 | every successor transition into an unvisited state is pushed, as its child node under the strategy's key |
| GraphSearch.Step | pacai/student/search.py:30-44 | a popped visited state is discarded: visited unchanged, frontier one shorter, no goal test; a new state is marked visited and recorded as expanded |
| GraphSearch.ZeroHeuristicPushes | pacai/student/search.py:120-124 | with a zero heuristic the A* pushes equal uniform-cost's pushes |
| GraphSearch.AStarWithZeroHeuristicIsUniformCost | pacai/student/search.py:105-124 | with a zero heuristic, A* starts from the same frontier as uniform-cost search and makes the same pushes and pops |
| GraphSearchInvariants.StartInv | pacai/student/search.py:26-28 | the seeded frontier satisfies the loop invariant |
| GraphSearchInvariants.FrontierBound | pacai/student/search.py:78-96 | under breadth-first and uniform-cost search, an unvisited state reached by some path has a pending entry no heavier than that path |
| GraphSearchInvariants.PopIsLightest | pacai/student/search.py:57 | breadth-first and uniform-cost search pop a lightest pending entry |
| GraphSearchInvariants.PopIsOptimal | pacai/student/search.py:83-88 | a newly visited state is popped at its least weight over all paths from the start |
| GraphSearchInvariants.PopKeepsBookkeeping | pacai/student/search.py:37 | marking a new state visited keeps path validity and expand-at-most-once |
| GraphSearchInvariants.PopKeepsOrder | pacai/student/search.py:83-88 | breadth-first and uniform-cost search expand in non-decreasing weight |
| GraphSearchInvariants.PopKeepsOptimal | pacai/student/search.py:83-88 | after the pop, every expanded node still has least weight among paths to its state |
| GraphSearchInvariants.FewerPendingKeeps | pacai/student/search.py:34-35 | dropping pending entries keeps every invariant that does not require them |
| GraphSearchInvariants.DiscardKeepsCovered | pacai/student/search.py:34-35 | discarding a visited duplicate leaves every successor of an expanded node visited or pending |
| GraphSearchInvariants.DiscardKeepsInv | pacai/student/search.py:34-35 | discarding a visited duplicate keeps the loop invariant |
| GraphSearchInvariants.PushedFacts | pacai/student/search.py:93-96 | pushed entries lie in the state graph, carry their key, lead from the start at their stored cost, and weigh at least their parent |
| GraphSearchInvariants.ExpandKeepsCovered | pacai/student/search.py:42-44 | after an expansion every successor of every expanded node is visited or pending |
| GraphSearchInvariants.ExpandKeepsOrdered | pacai/student/search.py:93-96 | after an expansion nothing pending is lighter than anything expanded (breadth-first, uniform-cost) |
| GraphSearchInvariants.PushedWeights | pacai/student/search.py:67-69 | a pushed entry weighs at least its parent, and exactly one more action under breadth-first search |
| GraphSearchInvariants.AppendKeepsSorted | pacai/student/search.py:67-69 | appending same-depth entries behind shallower ones keeps the queue sorted by depth |
| GraphSearchInvariants.QueueTailLayered | pacai/student/search.py:56-57 | behind the entry dequeued next, the breadth-first queue is sorted by depth and nothing is more than one step deeper than that entry |
| GraphSearchInvariants.ExpandKeepsLayered | pacai/student/search.py:56-69 | the breadth-first queue stays sorted by depth and within one depth of the last expanded node |
| GraphSearchInvariants.ExpandKeepsInv | pacai/student/search.py:37-44 | expanding a new non-goal state keeps the loop invariant |
| GraphSearchInvariants.GoalStepSolves | pacai/student/search.py:39-40 | on reaching a goal the plan is its action list; under breadth-first and uniform-cost search no goal path is lighter |
| GraphSearchInvariants.PoppedGoalIsFirst | pacai/student/search.py:37-40 | a goal just popped becomes the last expanded node, and no node expanded before it is a goal |
| GraphSearchInvariants.NoLighterGoal | pacai/student/search.py:83-88 | under breadth-first and uniform-cost search, the entry popped is no heavier than any path from the start to a goal |
| GraphSearchInvariants.StepKeepsInv | pacai/student/search.py:30-44 | each iteration keeps the invariant or stops on a goal, and either visits a new state or shrinks the frontier with `visited` unchanged |
| GraphSearchInvariants.ExhaustedMeansUnreachable | pacai/student/search.py:46 | when the frontier runs out, the start was expanded first and no goal is reachable |
| Searches.SolvedFinishes | pacai/student/search.py:39-40 | stopping on a goal establishes the loop's final guarantees |
| Searches.ExhaustedFinishes | pacai/student/search.py:46 | running out of entries establishes the loop's final guarantees with the plan `[]` |
| Searches.Search | pacai/student/search.py:26-46 | the loop terminates. Either its plan is the action list of the goal where it stopped, or the plan is `[]` and no goal is reachable. Every expanded node's actions lead from the start to its state, and no state is expanded twice. Breadth-first and uniform-cost search expand in non-decreasing weight and stop at a lightest goal. A goal start gives `[]` after one expansion |
| Searches.DepthFirstSearch | pacai/student/search.py:10-46 | the plan reaches a goal, or is `[]` and no goal is reachable; a goal start gives `[]` |
| Searches.BreadthFirstSearch | pacai/student/search.py:48-71 | as depth-first search, and the plan has the fewest actions of all goal-reaching action lists |
| Searches.UniformCostSearch | pacai/student/search.py:73-98 | the plan reaches a goal at a cost no goal-reaching path undercuts, or is `[]` and no goal is reachable |
| Searches.AStarSearch | pacai/student/search.py:100-126 | the plan reaches a goal, or is `[]` and no goal is reachable; a goal start gives `[]` |
| ExtReals.Max | pacai/student/multiagents.py:214 | the larger of two scores: an upper bound of both, and one of them |
| ExtReals.Min | pacai/student/multiagents.py:226 | the smaller of two scores: a lower bound of both, and one of them |
| ExtReals.MaxOf | pacai/student/multiagents.py:140-164 | the largest score bounds every element and is one of them; `-inf` for no elements |
| ExtReals.MinOf | pacai/student/multiagents.py:140-164 | the smallest score is below every element and is one of them; `+inf` for no elements |
| ExtReals.MaxOfPrefix | pacai/student/multiagents.py:208-216 | the maximum of the moves tried so far never exceeds the maximum of all moves |
| ExtReals.MinOfPrefix | pacai/student/multiagents.py:220-228 | the minimum of the moves tried so far is never below the minimum of all moves |
| Games.WithoutStop | pacai/student/multiagents.py:134-135 | the filtered list holds exactly the actions other than `Stop`, with multiplicities, and is unchanged when `Stop` is absent |
| Games.WithoutStopDistributes | pacai/student/multiagents.py:134-135 | filtering works piecewise over concatenation, so the kept actions stay in their original order |
| Games.Moves | pacai/student/multiagents.py:133-135 | an action is tried exactly when it is legal and, on Pacman's turn, not `Stop` |
| Games.Leaf | pacai/student/multiagents.py:129-130 | the search goes below a node only with depth left and the game neither won nor lost; depth 0 is always a leaf |
| Games.NextAgent | pacai/student/multiagents.py:147 | the next agent is a valid index; it is 0 exactly after the last agent, and otherwise the next index |
| Games.NextDepth | pacai/student/multiagents.py:147-148 | a unit of depth is used up exactly after the last agent has moved; after any other agent the depth is unchanged |
| Games.TurnsCountDown | pacai/student/multiagents.py:147-148 | every turn uses up exactly one of the `depth * numAgents - agent` remaining plies, so recursion depth is bounded |
| MinimaxSearch.Improve | pacai/student/multiagents.py:151-162 | the loop ends on its starting best or on a later move together with that move's score |
| MinimaxSearch.ImproveFindsFirstBest | pacai/student/multiagents.py:151-162 | the loop ends on the best score, and on the first move reaching it; it holds no move only when every score is the sentinel |
| MinimaxSearch.Minimax | pacai/student/multiagents.py:128-164 | at a leaf, or with no moves, the result is the evaluation and no action; any action returned is one of the moves tried |
| MinimaxSearch.MinimaxIsValue | pacai/student/multiagents.py:128-164 | minimax returns the depth-limited game value |
| MinimaxSearch.MinimaxScansChildValues | pacai/student/multiagents.py:150-164 | at an inner node, minimax runs its loop over the children's game values |
| MinimaxSearch.MinimaxPicksFirstBest | pacai/student/multiagents.py:140-164 | at an inner node, minimax returns the best child value and the first move reaching it. It returns no move only when every child is worth the sentinel (`-inf` for Pacman, `+inf` for a ghost) |
| MinimaxSearch.MinimaxAction | pacai/student/multiagents.py:166-169 | the minimax agent's move is a legal move other than `Stop`, and there is none at a leaf |
| AlphaBetaSearch.AlphaBeta | pacai/student/multiagents.py:190-204 | at a leaf, or with no moves, the result is the evaluation and no action; otherwise some move tried is returned |
| AlphaBetaSearch.MaxTurn | pacai/student/multiagents.py:206-217 | Pacman's loop ends on its starting best or on a later move |
| AlphaBetaSearch.MinTurn | pacai/student/multiagents.py:218-229 | a ghost's loop ends on its starting best or on a later move |
| AlphaBetaSearch.FullWindowIsExact | pacai/student/multiagents.py:231 | over the window (-inf, +inf), a fail-soft answer is exact |
| AlphaBetaSearch.AlphaBetaFailSoft | pacai/student/multiagents.py:190-229 | for every window with alpha <= beta, the score is exact when the game value lies strictly inside the window. At or below alpha it is an upper bound no larger than alpha; at or above beta it is a lower bound no smaller than beta |
| AlphaBetaSearch.MaxTurnOnce | pacai/student/multiagents.py:208-216 | one pass of Pacman's loop keeps the running best fail-soft for the maximum over one more child, leaves alpha the larger of its starting value and that best, and stops the loop exactly when alpha then exceeds beta |
| AlphaBetaSearch.MinTurnOnce | pacai/student/multiagents.py:220-228 | one pass of a ghost's loop keeps the running best fail-soft for the minimum over one more child, leaves beta the smaller of its starting value and that best, and stops the loop exactly when beta then falls below alpha |
| AlphaBetaSearch.MaxTurnFailSoft | pacai/student/multiagents.py:206-217 | Pacman's loop, including its cut when alpha exceeds beta, keeps the running best fail-soft for the maximum child value |
| AlphaBetaSearch.MinTurnFailSoft | pacai/student/multiagents.py:218-229 | a ghost's loop, including its cut when beta falls below alpha, keeps the running best fail-soft for the minimum child value |
| AlphaBetaSearch.AlphaBetaIsValue | pacai/student/multiagents.py:231 | started with the full window, alpha-beta returns the game value |
| AlphaBetaSearch.AlphaBetaAction | pacai/student/multiagents.py:231-233 | the alpha-beta agent's move is a legal move other than `Stop`; there is none exactly at a leaf or with no moves |
| AlphaBetaSearch.OpenAboveDecidesLikeValue | pacai/student/multiagents.py:210-213 | searched with beta = +inf, a child's score beats the running best exactly when its game value does, and then equals it |
| AlphaBetaSearch.RootTurnTracksMinimax | pacai/student/multiagents.py:206-217 | at the root, Pacman's alpha-beta loop makes the same updates as the minimax loop over the children's values |
| AlphaBetaSearch.AlphaBetaAgreesWithMinimax | pacai/student/multiagents.py:204-233 | from the full window, alpha-beta returns minimax's root value and, whenever minimax names a move, the same move. Minimax names no move only when every child is worth `-inf`; alpha-beta then returns the first move |
| ExpectimaxSearch.MaxReal | pacai/student/multiagents.py:270-279 | the largest child value bounds every child value and is one of them |
| ExpectimaxSearch.MinReal | pacai/student/multiagents.py:280-287 | the smallest child value is below every child value and is one of them |
| ExpectimaxSearch.BestMove | pacai/student/multiagents.py:270-279 | Pacman's loop always names a move: the starting one or a later move, with that move's score |
| ExpectimaxSearch.BestMoveIsFirstMax | pacai/student/multiagents.py:270-279 | Pacman's loop ends on the largest score and the first move reaching it |
| ExpectimaxSearch.Expectation | pacai/student/multiagents.py:281-287 | from move `i` on, a ghost's loop adds to its running total exactly the `p`-weighted scores of the moves not yet seen |
| ExpectimaxSearch.WeightedIsScaledSum | pacai/student/multiagents.py:286 | weighting every score by `p` and adding them up equals `p` times their sum |
| ExpectimaxSearch.ExpectationIsScaledSum | pacai/student/multiagents.py:281-287 | a ghost's loop ends on the sum of the child scores times the probability `1/n` |
| ExpectimaxSearch.SumAtMost | pacai/student/multiagents.py:283-286 | a sum of `n` scores none above `m` is at most `n` copies of `m` |
| ExpectimaxSearch.SumAtLeast | pacai/student/multiagents.py:283-286 | a sum of `n` scores none below `m` is at least `n` copies of `m` |
| ExpectimaxSearch.LoopIsMean | pacai/student/multiagents.py:281-287 | a ghost's loop, starting from 0 with probability `1/n`, ends on the mean of the `n` child scores |
| ExpectimaxSearch.MeanBetweenExtremes | pacai/student/multiagents.py:281-287 | the mean of the child values lies between the smallest and the largest of them |
| ExpectimaxSearch.Expectimax | pacai/student/multiagents.py:256-287 | the result names no move exactly at a leaf or with no moves, and is then the evaluation; any move named is one of the moves tried |
| ExpectimaxSearch.ExpectimaxIsValue | pacai/student/multiagents.py:256-287 | expectimax returns the expectimax value: the maximum child value for Pacman, the mean child value for a ghost |
| ExpectimaxSearch.ExpectimaxScansChildValues | pacai/student/multiagents.py:270-287 | at an inner node, expectimax runs its loops over the children's expectimax values |
| ExpectimaxSearch.ExpectimaxMaxNode | pacai/student/multiagents.py:270-279 | on Pacman's turn the value is the largest child value, and the move is the first reaching it |
| ExpectimaxSearch.ExpectimaxChanceNode | pacai/student/multiagents.py:280-287 | on a ghost's turn the value is the mean of the child values, between their minimum and maximum, and the move is the ghost's first legal move |
| ExpectimaxSearch.ExpectimaxAction | pacai/student/multiagents.py:289-290 | the expectimax agent's move is a legal move other than `Stop`; there is none exactly at a leaf or with no moves |

Pruning is meant to save work without changing the agent's answer. The model follows the code, which keeps that promise with one exception. At a root whose children are all worth `-inf`, minimax returns no action (`None`), and alpha-beta returns `legalMoves[0]`. `AlphaBetaSearch.AlphaBetaAgreesWithMinimax` states exactly this difference.

## Left out

- `ReflexAgent.getAction`, `ReflexAgent.evaluationFunction` (pacai/student/multiagents.py:20-89) and `betterEvaluationFunction` (292-347): hand-tuned floating-point scoring over game-engine objects, with a random tie-break. Every search takes the evaluation as a function parameter instead.
- `ReflexAgent.manhattan` (pacai/student/multiagents.py:91-92): an unused helper.
- `ContestAgent` (pacai/student/multiagents.py:349-365): it has no implementation.
- `pacai/student/analysis.py`: it only returns fixed tuning constants.
- The `Stack`, `Queue` and `PriorityQueue` classes of `pacai/util` are not part of this model. They are modelled as sequences of keyed entries with the pop each discipline allows.
- The game engine behind `getLegalActions`, `generateSuccessor`, `getNumAgents`, `isWin` and `isLose` is not part of this model. These are the fields of `Games.Game`.
- The action `'Stop'` is the field `stop` of `Games.Game`; the code compares against the string literally.
- Floating point: scores are exact reals, with the two infinities for minimax and alpha-beta. Rounding of `1.0 / len(legalMoves)` is not modelled, and neither is the NaN that `inf + -inf` would produce. Expectimax evaluations are finite reals.
- Step costs are natural numbers and heuristic values are integers; the source accepts any numbers. The heuristic takes only the state, because the problem argument is fixed for a call.
- Searches.Search: termination is proved only for a finite state graph, given as a ghost set closed under successors. On an infinite graph the source can run forever.
- Searches.Search: depth-first and breadth-first search in the source do not store a path cost. The model stores one for every strategy; it never influences a depth-first or breadth-first pop.
- Searches.Search: the second result, the expanded nodes in order, is bookkeeping the source does not return. The four searches return only the plan.
- Searches.AStarSearch: optimality under an admissible or consistent heuristic is not claimed. The proved guarantee is a valid plan or `[]` with no reachable goal, and equality with uniform-cost search under a zero heuristic.
- Searches.UniformCostSearch: the priority queue's order among equal keys is left open. `GraphSearch.Step` allows any lowest-key entry; the loop method pops the earliest one.
- MinimaxSearch.Minimax: the code calls each child search inside its loop. The model computes the child scores first and then runs the loop over them. For these pure functions the result is the same. Alpha-beta keeps the calls inside the loop, because each child's window depends on the moves before it.
- Calls with no agents or with an agent index out of range are excluded by `requires`. In the source only an inner node with moves reaches the `% state.getNumAgents()` (pacai/student/multiagents.py:147) and fails there when there are no agents; a leaf, or a node with no moves, returns its evaluation first (lines 129-130 and 136-137). The model's `requires agent < g.agents` also excludes those leaf calls, which the source answers.
