/** The path-search problem interface: a start state, a goal test and a
    successor function producing (next state, action, step cost) triples,
    and what it means for an action list to lead somewhere. */
module SearchProblem {

  /** One successor triple: the state reached, the action taken, its cost. */
  datatype Transition<S, A> = Transition(next: S, action: A, cost: nat)

  /** A search problem as the graph search sees it. */
  datatype Problem<!S, A> = Problem(
    start: S,
    isGoal: S -> bool,
    successors: S -> seq<Transition<S, A>>)

  /** `path` applied from `from` can end in `to` through successor
      transitions whose step costs add up to `cost`.  Action labels need not
      be unique among a state's successors, so this is a relation. */
  ghost predicate Leads<S(!new), A(!new)>(p: Problem<S, A>, from: S, path: seq<A>, to: S, cost: int)
    decreases |path|
  {
    if path == [] then to == from && cost == 0
    else exists mid: S, t: Transition<S, A> ::
      && t in p.successors(mid)
      && t.next == to
      && t.action == path[|path| - 1]
      && Leads(p, from, path[..|path| - 1], mid, cost - t.cost)
  }

  /** `path` leads from the start state to a goal state. */
  ghost predicate ReachesGoal<S(!new), A(!new)>(p: Problem<S, A>, path: seq<A>)
  {
    exists to: S, cost: int :: Leads(p, p.start, path, to, cost) && p.isGoal(to)
  }

  ghost predicate GoalReachable<S(!new), A(!new)>(p: Problem<S, A>)
  {
    exists path: seq<A> :: ReachesGoal(p, path)
  }

  /** `states` holds the start state and every successor of its members:
      a finite state graph containing everything reachable. */
  ghost predicate ClosedUnder<S(!new), A(!new)>(p: Problem<S, A>, states: set<S>)
  {
    && p.start in states
    && forall s, t :: s in states && t in p.successors(s) ==> t.next in states
  }

  /** Appending a successor's action extends a path to that successor. */
  lemma LeadsExtend<S(!new), A(!new)>(p: Problem<S, A>, from: S, path: seq<A>, mid: S, cost: int, t: Transition<S, A>)
    requires Leads(p, from, path, mid, cost)
    requires t in p.successors(mid)
    ensures Leads(p, from, path + [t.action], t.next, cost + t.cost)
  {
    var path' := path + [t.action];
    assert path'[..|path'| - 1] == path;
  }

  /** A non-empty path ends with one transition out of the state its
      prefix reaches. */
  lemma LeadsLastStep<S(!new), A(!new)>(p: Problem<S, A>, from: S, path: seq<A>, to: S, cost: int)
      returns (mid: S, t: Transition<S, A>)
    requires Leads(p, from, path, to, cost) && path != []
    ensures t in p.successors(mid) && t.next == to && t.action == path[|path| - 1]
    ensures Leads(p, from, path[..|path| - 1], mid, cost - t.cost)
  {
    mid, t :| && t in p.successors(mid) && t.next == to && t.action == path[|path| - 1]
              && Leads(p, from, path[..|path| - 1], mid, cost - t.cost);
  }

  /** Step costs are natural numbers, so path costs are too. */
  lemma {:induction false} LeadsCostNonnegative<S(!new), A(!new)>(p: Problem<S, A>, from: S, path: seq<A>, to: S, cost: int)
    requires Leads(p, from, path, to, cost)
    ensures cost >= 0
    decreases |path|
  {
    if path != [] {
      var mid: S, t: Transition<S, A> :|
        && t in p.successors(mid) && t.next == to && t.action == path[|path| - 1]
        && Leads(p, from, path[..|path| - 1], mid, cost - t.cost);
      LeadsCostNonnegative(p, from, path[..|path| - 1], mid, cost - t.cost);
    }
  }

  /** A set that holds `from` and is closed under the successors of its
      members holds every state any path from `from` reaches. */
  lemma {:induction false} ClosedSetHoldsReachable<S(!new), A(!new)>(p: Problem<S, A>, states: set<S>, from: S, path: seq<A>, to: S, cost: int)
    requires from in states
    requires forall s, t :: s in states && t in p.successors(s) ==> t.next in states
    requires Leads(p, from, path, to, cost)
    ensures to in states
    decreases |path|
  {
    if path != [] {
      var mid: S, t: Transition<S, A> :|
        && t in p.successors(mid) && t.next == to && t.action == path[|path| - 1]
        && Leads(p, from, path[..|path| - 1], mid, cost - t.cost);
      ClosedSetHoldsReachable(p, states, from, path[..|path| - 1], mid, cost - t.cost);
    }
  }
}
