/** The loop shared by depth-first, breadth-first, uniform-cost and A*
    search, one iteration at a time: pop an entry, discard it if its state
    was visited, otherwise mark the state visited, stop if it is a goal, and
    push every successor not yet visited. */
module GraphSearch {
  import opened Frontier
  import opened SearchProblem

  /** The four searches differ only in the frontier and in the key an entry
      is pushed with. */
  datatype Strategy<!S> = DepthFirst | BreadthFirst | UniformCost | AStar(heuristic: S -> int)

  function DisciplineOf<S>(k: Strategy<S>): Discipline
  {
    match k
    case DepthFirst => Lifo
    case BreadthFirst => Fifo
    case UniformCost => LowestKey
    case AStar(_) => LowestKey
  }

  /** A frontier entry's payload: a state, the actions taken to reach it and
      their accumulated cost. */
  datatype Node<S, A> = Node(state: S, actions: seq<A>, cost: int)

  /** The node reached from `n` by taking transition `t`. */
  function Child<S, A>(n: Node<S, A>, t: Transition<S, A>): Node<S, A>
  {
    Node(t.next, n.actions + [t.action], n.cost + t.cost)
  }

  /** The priority a node is pushed with: its accumulated cost, plus the
      heuristic estimate of its state under A*.  Stack and queue ignore it. */
  function Key<S, A>(k: Strategy<S>, n: Node<S, A>): (r: int)
    ensures k.UniformCost? ==> r == Weight(k, n)
    ensures k.AStar? ==> r == Weight(UniformCost, n) + k.heuristic(n.state)
  {
    match k
    case AStar(h) => n.cost + h(n.state)
    case _ => n.cost
  }

  function Enter<S, A>(k: Strategy<S>, n: Node<S, A>): Entry<Node<S, A>>
  {
    Entry(n, Key(k, n))
  }

  /** Everything the loop carries: the frontier, the visited set, and the
      nodes expanded so far in the order their states entered `visited`. */
  datatype SearchState<S, A> = SearchState(
    frontier: seq<Entry<Node<S, A>>>,
    visited: set<S>,
    expanded: seq<Node<S, A>>)

  /** The node of the start state: its empty action list leads from the
      start to the start at no cost. */
  function Root<S(!new), A(!new)>(p: Problem<S, A>): (r: Node<S, A>)
    ensures r.state == p.start && r.actions == []
    ensures Leads(p, p.start, r.actions, r.state, r.cost)
  {
    Node(p.start, [], 0)
  }

  /** The frontier seeded with the start state and no actions. */
  function Start<S(!new), A(!new)>(p: Problem<S, A>, k: Strategy<S>): (r: SearchState<S, A>)
    ensures r.visited == {} && r.expanded == []
    ensures |r.frontier| == 1 && r.frontier[0].item == Root(p) && r.frontier[0].key == Key(k, Root(p))
    ensures MayPop(DisciplineOf(k), r.frontier, 0)
  {
    SearchState([Enter(k, Root(p))], {}, [])
  }

  /** The entries pushed for the transitions `ts` out of node `n`, in order,
      skipping every transition into a visited state. */
  function Pushes<S, A>(k: Strategy<S>, n: Node<S, A>, ts: seq<Transition<S, A>>, visited: set<S>): (r: seq<Entry<Node<S, A>>>)
    ensures forall e :: e in r ==>
              && e.item.state !in visited
              && e.key == Key(k, e.item)
              && exists t :: t in ts && e.item == Child(n, t)
    decreases |ts|
  {
    if ts == [] then []
    else
      var here := if ts[0].next in visited then [] else [Enter(k, Child(n, ts[0]))];
      here + Pushes(k, n, ts[1..], visited)
  }

  /** No transition into an unvisited state is skipped. */
  lemma {:induction false} PushesEveryUnvisited<S, A>(k: Strategy<S>, n: Node<S, A>, ts: seq<Transition<S, A>>, visited: set<S>, t: Transition<S, A>)
    requires t in ts && t.next !in visited
    ensures Enter(k, Child(n, t)) in Pushes(k, n, ts, visited)
    decreases |ts|
  {
    if ts[0] != t {
      assert t in ts[1..];
      PushesEveryUnvisited(k, n, ts[1..], visited, t);
    }
  }

  /** Result of one iteration: keep looping, or stop with a plan. */
  datatype Outcome<S, A> = Continue(st: SearchState<S, A>) | Goal(st: SearchState<S, A>, plan: seq<A>)

  /** One iteration of the loop, popping the entry at index `i`. */
  function Step<S, A>(p: Problem<S, A>, k: Strategy<S>, st: SearchState<S, A>, i: int): (r: Outcome<S, A>)
    requires MayPop(DisciplineOf(k), st.frontier, i)
    ensures |r.st.expanded| <= |st.expanded| + 1
    ensures var s := st.frontier[i].item.state;
            if s in st.visited
            then r.Continue? && r.st.visited == st.visited && |r.st.frontier| == |st.frontier| - 1
            else r.st.visited == st.visited + {s} && r.st.expanded == st.expanded + [st.frontier[i].item]
  {
    var n := st.frontier[i].item;
    var rest := Remove(st.frontier, i);
    if n.state in st.visited then
      Continue(SearchState(rest, st.visited, st.expanded))
    else
      var visited := st.visited + {n.state};
      var expanded := st.expanded + [n];
      if p.isGoal(n.state) then
        Goal(SearchState(rest, visited, expanded), n.actions)
      else
        Continue(SearchState(rest + Pushes(k, n, p.successors(n.state), visited), visited, expanded))
  }

  function Last<T>(s: seq<T>): T
    requires |s| > 0
  {
    s[|s| - 1]
  }

  /** The quantity that is minimal at every pop of breadth-first search
      (number of actions) and of uniform-cost search (accumulated cost). */
  function Weight<S, A>(k: Strategy<S>, n: Node<S, A>): int
  {
    if k.BreadthFirst? then |n.actions| else n.cost
  }

  /** What one transition adds to `Weight`. */
  function StepWeight<S, A>(k: Strategy<S>, t: Transition<S, A>): nat
  {
    if k.BreadthFirst? then 1 else t.cost
  }

  /** `Weight` of an arbitrary path with the given actions and cost. */
  function PathWeight<S, A>(k: Strategy<S>, path: seq<A>, cost: int): int
  {
    if k.BreadthFirst? then |path| else cost
  }

  /** With an identically zero heuristic, A* pushes every entry with the
      key uniform-cost search uses. */
  lemma {:induction false} ZeroHeuristicPushes<S, A>(h: S -> int, n: Node<S, A>, ts: seq<Transition<S, A>>, visited: set<S>)
    requires forall s :: h(s) == 0
    ensures Pushes(AStar(h), n, ts, visited) == Pushes(UniformCost, n, ts, visited)
    decreases |ts|
  {
    if ts != [] {
      ZeroHeuristicPushes(h, n, ts[1..], visited);
      assert Key(AStar(h), Child(n, ts[0])) == Key(UniformCost, Child(n, ts[0]));
    }
  }

  /** With an identically zero heuristic, A* starts from the same frontier,
      may pop the same entries, and makes exactly the same pushes and pops as
      uniform-cost search. */
  lemma AStarWithZeroHeuristicIsUniformCost<S(!new), A(!new)>(p: Problem<S, A>, h: S -> int, st: SearchState<S, A>, i: int)
    requires forall s :: h(s) == 0
    ensures Start(p, AStar(h)) == Start(p, UniformCost)
    ensures DisciplineOf(AStar(h)) == DisciplineOf<S>(UniformCost)
    ensures MayPop(DisciplineOf<S>(UniformCost), st.frontier, i) ==>
              Step(p, AStar(h), st, i) == Step(p, UniformCost, st, i)
  {
    assert Key(AStar(h), Root(p)) == Key(UniformCost, Root(p));
    if MayPop(DisciplineOf<S>(UniformCost), st.frontier, i) {
      var n := st.frontier[i].item;
      ZeroHeuristicPushes(h, n, p.successors(n.state), st.visited + {n.state});
    }
  }
}
