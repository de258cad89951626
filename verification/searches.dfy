/** The graph-search loop and the four searches built on it: depth-first
    (stack), breadth-first (queue), uniform-cost (priority = accumulated
    cost) and A* (priority = accumulated cost + heuristic). */
module Searches {
  import opened Frontier
  import opened SearchProblem
  import opened GraphSearch
  import opened GraphSearchInvariants

  /** The loop stopped on a goal rather than running out of entries. */
  predicate Solved<S, A>(p: Problem<S, A>, expanded: seq<Node<S, A>>)
  {
    |expanded| > 0 && p.isGoal(Last(expanded).state)
  }

  /** `plan` leads to a goal at a cost no goal-reaching path undercuts. */
  ghost predicate CheapestGoalPath<S(!new), A(!new)>(p: Problem<S, A>, plan: seq<A>)
  {
    exists goal: S, cost: int ::
      && Leads(p, p.start, plan, goal, cost)
      && p.isGoal(goal)
      && forall path, goal', cost' :: Leads(p, p.start, path, goal', cost') && p.isGoal(goal') ==> cost <= cost'
  }

  /** Everything the shared loop promises about its plan and the nodes it
      expanded. */
  ghost predicate Finished<S(!new), A(!new)>(p: Problem<S, A>, k: Strategy<S>, states: set<S>,
                                             plan: seq<A>, expanded: seq<Node<S, A>>)
  {
    && |expanded| > 0 && expanded[0] == Root(p)
    && (Solved(p, expanded) ==> plan == Last(expanded).actions)
    && (!Solved(p, expanded) ==> plan == [] && !GoalReachable(p))
    && (forall n :: n in expanded ==> n.state in states && Leads(p, p.start, n.actions, n.state, n.cost))
    && (forall a, b :: 0 <= a < b < |expanded| ==> expanded[a].state != expanded[b].state)
    && (forall a :: 0 <= a < |expanded| - 1 ==> !p.isGoal(expanded[a].state))
    && ((k.BreadthFirst? || k.UniformCost?) ==>
          forall a, b :: 0 <= a < b < |expanded| ==> Weight(k, expanded[a]) <= Weight(k, expanded[b]))
    && ((k.BreadthFirst? || k.UniformCost?) && Solved(p, expanded) ==>
          forall path, goal, cost :: Leads(p, p.start, path, goal, cost) && p.isGoal(goal) ==>
            Weight(k, Last(expanded)) <= PathWeight(k, path, cost))
  }

  lemma SolvedFinishes<S(!new), A(!new)>(p: Problem<S, A>, k: Strategy<S>, states: set<S>, st: SearchState<S, A>, plan: seq<A>)
    requires SolvedBy(p, k, states, st, plan)
    ensures Finished(p, k, states, plan, st.expanded)
  {
    assert forall n :: n in st.expanded ==> n.state in st.visited;
  }

  lemma ExhaustedFinishes<S(!new), A(!new)>(p: Problem<S, A>, k: Strategy<S>, states: set<S>, st: SearchState<S, A>)
    requires Inv(p, k, states, st) && st.frontier == []
    ensures Finished(p, k, states, [], st.expanded)
  {
    ExhaustedMeansUnreachable(p, k, states, st);
    ExpandedWithin(st, states);
    assert Last(st.expanded) in st.expanded;
  }

  /** Every expanded state lies in the bounding set. */
  lemma ExpandedWithin<S, A>(st: SearchState<S, A>, states: set<S>)
    requires Within(st, states) && ExpandedOnce(st)
    ensures forall n :: n in st.expanded ==> n.state in states
  {
    assert forall n :: n in st.expanded ==> n.state in st.visited;
  }

  /** The shared loop.  `states` is a finite set closed under successors
      that holds the start state; it only bounds the loop.  Besides the plan
      it returns the nodes whose states entered `visited`, in that order. */
  method Search<S(!new), A(!new)>(p: Problem<S, A>, k: Strategy<S>, ghost states: set<S>)
    returns (plan: seq<A>, expanded: seq<Node<S, A>>)
    requires ClosedUnder(p, states)
    ensures Finished(p, k, states, plan, expanded)
    ensures p.isGoal(p.start) ==> plan == [] && |expanded| == 1
  {
    var st := Start(p, k);
    StartInv(p, k, states);
    while st.frontier != []
      invariant Inv(p, k, states, st)
      decreases |states - st.visited|, |st.frontier|
    {
      var i := PopIndex(DisciplineOf(k), st.frontier);
      var r := Step(p, k, st, i);
      StepKeepsInv(p, k, states, st, i);
      if r.Goal? {
        SolvedFinishes(p, k, states, r.st, r.plan);
        plan, expanded := r.plan, r.st.expanded;
        assert Finished(p, k, states, plan, expanded);
        return;
      }
      st := r.st;
    }
    ExhaustedFinishes(p, k, states, st);
    plan, expanded := [], st.expanded;
    assert Finished(p, k, states, plan, expanded);
  }

  /** pacai's depthFirstSearch: a plan to a goal, or `[]` when no goal is
      reachable; `[]` also when the start state is a goal. */
  method DepthFirstSearch<S(!new), A(!new)>(p: Problem<S, A>, ghost states: set<S>) returns (plan: seq<A>)
    requires ClosedUnder(p, states)
    ensures ReachesGoal(p, plan) || (plan == [] && !GoalReachable(p))
    ensures p.isGoal(p.start) ==> plan == []
  {
    var expanded;
    plan, expanded := Search(p, DepthFirst, states);
  }

  /** pacai's breadthFirstSearch: as depth-first search, and the plan has
      the fewest actions of all goal-reaching action lists. */
  method BreadthFirstSearch<S(!new), A(!new)>(p: Problem<S, A>, ghost states: set<S>) returns (plan: seq<A>)
    requires ClosedUnder(p, states)
    ensures ReachesGoal(p, plan) || (plan == [] && !GoalReachable(p))
    ensures ReachesGoal(p, plan) ==> forall path :: ReachesGoal(p, path) ==> |plan| <= |path|
    ensures p.isGoal(p.start) ==> plan == []
  {
    var expanded;
    plan, expanded := Search(p, BreadthFirst, states);
  }

  /** pacai's uniformCostSearch: a goal-reaching plan of least total step
      cost, or `[]` when no goal is reachable. */
  method UniformCostSearch<S(!new), A(!new)>(p: Problem<S, A>, ghost states: set<S>) returns (plan: seq<A>)
    requires ClosedUnder(p, states)
    ensures CheapestGoalPath(p, plan) || (plan == [] && !GoalReachable(p))
    ensures p.isGoal(p.start) ==> plan == []
  {
    var expanded;
    plan, expanded := Search(p, UniformCost, states);
    if Solved(p, expanded) {
      var last := Last(expanded);
      assert last in expanded;
      assert Leads(p, p.start, plan, last.state, last.cost);
    }
  }

  /** pacai's aStarSearch: a plan to a goal, or `[]` when no goal is
      reachable.  Optimality under an admissible heuristic is not claimed. */
  method AStarSearch<S(!new), A(!new)>(p: Problem<S, A>, heuristic: S -> int, ghost states: set<S>) returns (plan: seq<A>)
    requires ClosedUnder(p, states)
    ensures ReachesGoal(p, plan) || (plan == [] && !GoalReachable(p))
    ensures p.isGoal(p.start) ==> plan == []
  {
    var expanded;
    plan, expanded := Search(p, AStar(heuristic), states);
  }
}
