/** The multi-agent game interface the adversarial searches walk: agents
    move in turn (agent 0 is Pacman, the maximiser; agents 1.. are the
    ghosts), each turn offers a list of legal actions, and a depth-limited
    search counts depth in full rounds of all agents. */
module Games {

  datatype Option<T> = None | Some(value: T)

  /** A game as the searches see it.  `stop` is the action Pacman's
      searches never consider. */
  datatype Game<!G, !Act> = Game(
    agents: nat,
    legal: (G, nat) -> seq<Act>,
    successor: (G, nat, Act) -> G,
    isWin: G -> bool,
    isLose: G -> bool,
    stop: Act)

  /** What every search returns: a score and the action that achieves it,
      if any. */
  datatype Scored<V, Act> = Scored(value: V, action: Option<Act>)

  /** `ms` with every occurrence of `stop` dropped, order kept. */
  function Drop<Act(==)>(ms: seq<Act>, stop: Act): seq<Act>
  {
    if ms == [] then []
    else (if ms[0] == stop then [] else [ms[0]]) + Drop(ms[1..], stop)
  }

  lemma {:induction false} DropKeeps<Act(!new)>(ms: seq<Act>, stop: Act)
    ensures forall a :: a in Drop(ms, stop) <==> a in ms && a != stop
    ensures multiset(Drop(ms, stop)) == multiset(ms)[stop := 0]
    ensures stop !in ms ==> Drop(ms, stop) == ms
  {
    if ms != [] {
      assert ms == [ms[0]] + ms[1..];
      DropKeeps(ms[1..], stop);
    }
  }

  lemma {:induction false} DropDistributes<Act>(a: seq<Act>, b: seq<Act>, stop: Act)
    ensures Drop(a + b, stop) == Drop(a, stop) + Drop(b, stop)
    decreases |a|
  {
    if a != [] {
      assert (a + b)[0] == a[0];
      assert (a + b)[1..] == a[1..] + b;
      DropDistributes(a[1..], b, stop);
    } else {
      assert a + b == b;
    }
  }

  /** Pacman's legal actions without `stop`: exactly the actions other than
      `stop`, with their multiplicities, and the list itself when `stop` is
      not among them. */
  function WithoutStop<Act(==,!new)>(ms: seq<Act>, stop: Act): (r: seq<Act>)
    ensures forall a :: a in r <==> a in ms && a != stop
    ensures multiset(r) == multiset(ms)[stop := 0]
    ensures stop !in ms ==> r == ms
  {
    DropKeeps(ms, stop);
    Drop(ms, stop)
  }

  /** Filtering works piecewise, so it keeps the relative order of the
      actions it keeps. */
  lemma WithoutStopDistributes<Act(!new)>(a: seq<Act>, b: seq<Act>, stop: Act)
    ensures WithoutStop(a + b, stop) == WithoutStop(a, stop) + WithoutStop(b, stop)
  {
    DropDistributes(a, b, stop);
  }

  /** The actions a search tries for `agent` in state `s`: Pacman's legal
      actions without `stop`, every other agent's legal actions. */
  function Moves<G, Act(==,!new)>(g: Game<G, Act>, s: G, agent: nat): (r: seq<Act>)
    ensures forall a :: a in r <==> a in g.legal(s, agent) && (agent == 0 ==> a != g.stop)
  {
    if agent == 0 then WithoutStop(g.legal(s, agent), g.stop) else g.legal(s, agent)
  }

  /** The search stops at depth 0 and at won or lost states. */
  predicate Leaf<G, Act>(g: Game<G, Act>, s: G, depth: nat)
    ensures !Leaf(g, s, depth) ==> depth > 0 && !g.isWin(s) && !g.isLose(s)
    ensures depth == 0 ==> Leaf(g, s, depth)
  {
    depth == 0 || g.isWin(s) || g.isLose(s)
  }

  function Child<G, Act>(g: Game<G, Act>, s: G, agent: nat, a: Act): G
  {
    g.successor(s, agent, a)
  }

  /** Agents move in index order, wrapping back to Pacman. */
  function NextAgent<G, Act>(g: Game<G, Act>, agent: nat): (r: nat)
    requires agent < g.agents
    ensures r < g.agents
    ensures r == 0 <==> agent == g.agents - 1
    ensures r != 0 ==> r == agent + 1
  {
    var r := (agent + 1) % g.agents;
    assert agent + 1 < g.agents ==> r == agent + 1;
    assert agent + 1 == g.agents ==> r == 0;
    r
  }

  /** One unit of depth is used up when the turn returns to Pacman. */
  function NextDepth<G, Act>(g: Game<G, Act>, depth: nat, agent: nat): (r: nat)
    requires agent < g.agents && depth > 0
    ensures agent == g.agents - 1 ==> r == depth - 1
    ensures agent < g.agents - 1 ==> r == depth
  {
    if NextAgent(g, agent) == 0 then depth - 1 else depth
  }

  /** The number of single-agent turns still to search. */
  function Plies<G, Act>(g: Game<G, Act>, depth: nat, agent: nat): int
  {
    depth * g.agents - agent
  }

  /** Every turn costs exactly one ply, so a search of depth `d` started on
      Pacman's turn looks `d` full rounds of all agents ahead. */
  lemma TurnsCountDown<G, Act>(g: Game<G, Act>, depth: nat, agent: nat)
    requires agent < g.agents && depth > 0
    ensures Plies(g, depth, agent) > 0
    ensures Plies(g, NextDepth(g, depth, agent), NextAgent(g, agent)) == Plies(g, depth, agent) - 1
  {
    assert depth * g.agents == (depth - 1) * g.agents + g.agents;
  }
}
