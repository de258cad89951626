/** What stays true of the graph-search loop from one iteration to the next,
    and the proofs that every iteration keeps it. */
module GraphSearchInvariants {
  import opened Frontier
  import opened SearchProblem
  import opened GraphSearch

  /** Every state the loop touches lies in the finite graph `states`. */
  ghost predicate Within<S, A>(st: SearchState<S, A>, states: set<S>)
  {
    && st.visited <= states
    && forall e :: e in st.frontier ==> e.item.state in states
  }

  /** Each entry's action list is a path from the start state to its state
      at its accumulated cost, and each entry was pushed with its key. */
  ghost predicate Sound<S(!new), A(!new)>(p: Problem<S, A>, k: Strategy<S>, st: SearchState<S, A>)
  {
    && (forall e :: e in st.frontier ==>
          e.key == Key(k, e.item) && Leads(p, p.start, e.item.actions, e.item.state, e.item.cost))
    && (forall n :: n in st.expanded ==> Leads(p, p.start, n.actions, n.state, n.cost))
  }

  /** `visited` holds exactly the expanded states, each expanded once. */
  ghost predicate ExpandedOnce<S, A>(st: SearchState<S, A>)
  {
    && st.visited == (set n | n in st.expanded :: n.state)
    && forall a, b :: 0 <= a < b < |st.expanded| ==> st.expanded[a].state != st.expanded[b].state
  }

  /** No expanded state was a goal: the loop would have stopped there. */
  ghost predicate Unsolved<S, A>(p: Problem<S, A>, st: SearchState<S, A>)
  {
    forall n :: n in st.expanded ==> !p.isGoal(n.state)
  }

  /** Before the first expansion the loop holds the seeded frontier; after
      it, the start state was expanded first. */
  ghost predicate Started<S(!new), A(!new)>(p: Problem<S, A>, k: Strategy<S>, st: SearchState<S, A>)
  {
    && (|st.expanded| == 0 ==> st.frontier == Start(p, k).frontier && st.visited == {})
    && (|st.expanded| > 0 ==> st.expanded[0] == Root(p))
  }

  /** Every successor of an expanded state is visited or waits on the
      frontier, through an entry no heavier than the path through the
      expanded node. */
  ghost predicate Covered<S, A>(p: Problem<S, A>, k: Strategy<S>, st: SearchState<S, A>)
  {
    forall n, t :: n in st.expanded && t in p.successors(n.state) ==>
      || t.next in st.visited
      || exists e :: e in st.frontier && e.item.state == t.next && Weight(k, e.item) <= Weight(k, n) + StepWeight(k, t)
  }

  /** Breadth-first and uniform-cost search expand in order of weight, and
      nothing pending is lighter than what was already expanded. */
  ghost predicate Ordered<S, A>(k: Strategy<S>, st: SearchState<S, A>)
  {
    (k.BreadthFirst? || k.UniformCost?) ==>
      && (forall a, b :: 0 <= a < b < |st.expanded| ==> Weight(k, st.expanded[a]) <= Weight(k, st.expanded[b]))
      && (forall n, e :: n in st.expanded && e in st.frontier ==> Weight(k, n) <= Weight(k, e.item))
  }

  /** The breadth-first queue is sorted by depth and spans at most two
      consecutive depths. */
  ghost predicate Layered<S, A>(k: Strategy<S>, st: SearchState<S, A>)
  {
    k.BreadthFirst? ==>
      && (forall a, b :: 0 <= a < b < |st.frontier| ==> Weight(k, st.frontier[a].item) <= Weight(k, st.frontier[b].item))
      && (|st.expanded| > 0 ==>
            forall e :: e in st.frontier ==> Weight(k, e.item) <= Weight(k, Last(st.expanded)) + 1)
  }

  /** Breadth-first and uniform-cost search expand each state at its least
      weight over all paths from the start. */
  ghost predicate Optimal<S(!new), A(!new)>(p: Problem<S, A>, k: Strategy<S>, st: SearchState<S, A>)
  {
    (k.BreadthFirst? || k.UniformCost?) ==>
      forall n, path, cost :: n in st.expanded && Leads(p, p.start, path, n.state, cost) ==>
        Weight(k, n) <= PathWeight(k, path, cost)
  }

  /** The loop invariant. */
  ghost predicate Inv<S(!new), A(!new)>(p: Problem<S, A>, k: Strategy<S>, states: set<S>, st: SearchState<S, A>)
  {
    && ClosedUnder(p, states)
    && Within(st, states)
    && Sound(p, k, st)
    && ExpandedOnce(st)
    && Unsolved(p, st)
    && Started(p, k, st)
    && Covered(p, k, st)
    && Ordered(k, st)
    && Layered(k, st)
    && Optimal(p, k, st)
  }

  /** The seeded frontier satisfies the invariant. */
  lemma StartInv<S(!new), A(!new)>(p: Problem<S, A>, k: Strategy<S>, states: set<S>)
    requires ClosedUnder(p, states)
    ensures Inv(p, k, states, Start(p, k))
  {
    assert Leads(p, p.start, [], p.start, 0);
  }

  /** A path through an expanded state into an unvisited one weighs at
      least some pending entry. */
  lemma ThroughExpanded<S(!new), A(!new)>(p: Problem<S, A>, k: Strategy<S>, st: SearchState<S, A>,
                                          prefix: seq<A>, mid: S, cost: int, t: Transition<S, A>)
    requires k.BreadthFirst? || k.UniformCost?
    requires Covered(p, k, st) && Optimal(p, k, st)
    requires forall s :: s in st.visited ==> exists n :: n in st.expanded && n.state == s
    requires Leads(p, p.start, prefix, mid, cost) && mid in st.visited
    requires t in p.successors(mid) && t.next !in st.visited
    ensures exists e :: e in st.frontier && Weight(k, e.item) <= PathWeight(k, prefix, cost) + StepWeight(k, t)
  {
    var n :| n in st.expanded && n.state == mid;
    assert Weight(k, n) <= PathWeight(k, prefix, cost);
  }

  /** A state not yet visited, reached by some path, is reached no more
      cheaply than some pending entry. */
  lemma {:induction false} FrontierBound<S(!new), A(!new)>(p: Problem<S, A>, k: Strategy<S>, st: SearchState<S, A>,
                                                           path: seq<A>, to: S, cost: int)
    requires k.BreadthFirst? || k.UniformCost?
    requires Covered(p, k, st) && Optimal(p, k, st)
    requires forall s :: s in st.visited ==> exists n :: n in st.expanded && n.state == s
    requires p.start in st.visited
    requires Leads(p, p.start, path, to, cost) && to !in st.visited
    ensures exists e :: e in st.frontier && Weight(k, e.item) <= PathWeight(k, path, cost)
    decreases |path|
  {
    if path == [] {
      assert false;
    } else {
      var prefix := path[..|path| - 1];
      var mid, t := LeadsLastStep(p, p.start, path, to, cost);
      assert PathWeight(k, path, cost) == PathWeight(k, prefix, cost - t.cost) + StepWeight(k, t);
      if mid in st.visited {
        ThroughExpanded(p, k, st, prefix, mid, cost - t.cost, t);
      } else {
        FrontierBound(p, k, st, prefix, mid, cost - t.cost);
      }
    }
  }

  /** Under breadth-first and uniform-cost search the popped entry is a
      lightest pending one. */
  lemma PopIsLightest<S(!new), A(!new)>(p: Problem<S, A>, k: Strategy<S>, st: SearchState<S, A>, i: int)
    requires k.BreadthFirst? || k.UniformCost?
    requires Sound(p, k, st) && Layered(k, st)
    requires MayPop(DisciplineOf(k), st.frontier, i)
    ensures forall e :: e in st.frontier ==> Weight(k, st.frontier[i].item) <= Weight(k, e.item)
  {
    forall e | e in st.frontier
      ensures Weight(k, st.frontier[i].item) <= Weight(k, e.item)
    {
      var j :| 0 <= j < |st.frontier| && st.frontier[j] == e;
      if k.UniformCost? {
        assert st.frontier[i] in st.frontier;
      }
    }
  }

  /** The popped entry, when its state is new, is expanded at its least
      weight over all paths. */
  lemma PopIsOptimal<S(!new), A(!new)>(p: Problem<S, A>, k: Strategy<S>, states: set<S>, st: SearchState<S, A>, i: int,
                                       path: seq<A>, to: S, cost: int)
    requires k.BreadthFirst? || k.UniformCost?
    requires Inv(p, k, states, st) && MayPop(DisciplineOf(k), st.frontier, i)
    requires Leads(p, p.start, path, to, cost) && to !in st.visited
    ensures Weight(k, st.frontier[i].item) <= PathWeight(k, path, cost)
  {
    PopIsLightest(p, k, st, i);
    if |st.expanded| == 0 {
      LeadsCostNonnegative(p, p.start, path, to, cost);
    } else {
      assert st.expanded[0] in st.expanded;
      FrontierBound(p, k, st, path, to, cost);
    }
  }

  /** The state right after popping the entry at `i` and marking its state
      visited, before any successor is pushed. */
  function Popped<S, A>(st: SearchState<S, A>, i: int): SearchState<S, A>
    requires 0 <= i < |st.frontier|
  {
    var n := st.frontier[i].item;
    SearchState(Remove(st.frontier, i), st.visited + {n.state}, st.expanded + [n])
  }

  lemma PoppedWithin<S, A>(st: SearchState<S, A>, states: set<S>, i: int)
    requires Within(st, states) && 0 <= i < |st.frontier|
    ensures st.frontier[i].item.state in states
    ensures Within(Popped(st, i), states)
  {
    assert st.frontier[i] in st.frontier;
  }

  lemma PoppedSound<S(!new), A(!new)>(p: Problem<S, A>, k: Strategy<S>, st: SearchState<S, A>, i: int)
    requires Sound(p, k, st) && 0 <= i < |st.frontier|
    ensures Leads(p, p.start, st.frontier[i].item.actions, st.frontier[i].item.state, st.frontier[i].item.cost)
    ensures Sound(p, k, Popped(st, i))
  {
    assert st.frontier[i] in st.frontier;
    var st' := Popped(st, i);
    forall n | n in st'.expanded
      ensures Leads(p, p.start, n.actions, n.state, n.cost)
    {
      if n !in st.expanded {
        assert n == st.frontier[i].item;
      }
    }
  }

  lemma PoppedExpandedOnce<S, A>(st: SearchState<S, A>, i: int)
    requires ExpandedOnce(st) && 0 <= i < |st.frontier| && st.frontier[i].item.state !in st.visited
    ensures ExpandedOnce(Popped(st, i))
  {
    var n := st.frontier[i].item;
    var ex := st.expanded + [n];
    assert Popped(st, i).expanded == ex;
    assert (set m | m in ex :: m.state) == st.visited + {n.state} by {
      assert forall m :: m in ex <==> m in st.expanded || m == n;
    }
    forall a, b | 0 <= a < b < |ex|
      ensures ex[a].state != ex[b].state
    {
      if b == |st.expanded| {
        assert ex[a] == st.expanded[a];
        assert st.expanded[a] in st.expanded;
      }
    }
  }

  lemma PoppedStarted<S(!new), A(!new)>(p: Problem<S, A>, k: Strategy<S>, st: SearchState<S, A>, i: int)
    requires Started(p, k, st) && 0 <= i < |st.frontier|
    ensures Started(p, k, Popped(st, i))
  {
    if |st.expanded| == 0 {
      assert st.frontier[i].item == Root(p);
    }
  }

  /** Marking a new state visited keeps the bookkeeping invariants. */
  lemma PopKeepsBookkeeping<S(!new), A(!new)>(p: Problem<S, A>, k: Strategy<S>, states: set<S>, st: SearchState<S, A>, i: int)
    requires Within(st, states) && Sound(p, k, st) && ExpandedOnce(st) && Started(p, k, st)
    requires 0 <= i < |st.frontier| && st.frontier[i].item.state !in st.visited
    ensures st.frontier[i].item.state in states
    ensures Leads(p, p.start, st.frontier[i].item.actions, st.frontier[i].item.state, st.frontier[i].item.cost)
    ensures Within(Popped(st, i), states) && Sound(p, k, Popped(st, i))
    ensures ExpandedOnce(Popped(st, i)) && Started(p, k, Popped(st, i))
  {
    PoppedWithin(st, states, i);
    PoppedSound(p, k, st, i);
    PoppedExpandedOnce(st, i);
    PoppedStarted(p, k, st, i);
  }

  /** Breadth-first and uniform-cost search keep expanding in order of weight. */
  lemma PopKeepsOrder<S(!new), A(!new)>(p: Problem<S, A>, k: Strategy<S>, st: SearchState<S, A>, i: int)
    requires k.BreadthFirst? || k.UniformCost?
    requires Sound(p, k, st) && Ordered(k, st) && Layered(k, st) && MayPop(DisciplineOf(k), st.frontier, i)
    ensures forall e :: e in st.frontier ==> Weight(k, st.frontier[i].item) <= Weight(k, e.item)
    ensures forall a, b :: 0 <= a < b < |Popped(st, i).expanded| ==>
              Weight(k, Popped(st, i).expanded[a]) <= Weight(k, Popped(st, i).expanded[b])
  {
    PopIsLightest(p, k, st, i);
    assert st.frontier[i] in st.frontier;
  }

  /** Breadth-first and uniform-cost search expand the popped state at its
      least weight. */
  lemma PopKeepsOptimal<S(!new), A(!new)>(p: Problem<S, A>, k: Strategy<S>, states: set<S>, st: SearchState<S, A>, i: int)
    requires Inv(p, k, states, st) && MayPop(DisciplineOf(k), st.frontier, i)
    requires st.frontier[i].item.state !in st.visited
    ensures Optimal(p, k, Popped(st, i))
  {
    var st' := Popped(st, i);
    if k.BreadthFirst? || k.UniformCost? {
      forall m, path, cost | m in st'.expanded && Leads(p, p.start, path, m.state, cost)
        ensures Weight(k, m) <= PathWeight(k, path, cost)
      {
        if m !in st.expanded {
          PopIsOptimal(p, k, states, st, i, path, m.state, cost);
        }
      }
    }
  }

  /** Dropping pending entries, and nothing else, keeps every part of the
      invariant that does not ask for pending entries. */
  lemma FewerPendingKeeps<S(!new), A(!new)>(p: Problem<S, A>, k: Strategy<S>, states: set<S>, st: SearchState<S, A>, st': SearchState<S, A>)
    requires Inv(p, k, states, st)
    requires st'.visited == st.visited && st'.expanded == st.expanded
    requires forall e :: e in st'.frontier ==> e in st.frontier
    ensures Within(st', states) && Sound(p, k, st') && ExpandedOnce(st') && Unsolved(p, st')
    ensures Ordered(k, st') && Optimal(p, k, st')
  {
  }

  /** Discarding an entry of a visited state leaves every successor covered. */
  lemma DiscardKeepsCovered<S(!new), A(!new)>(p: Problem<S, A>, k: Strategy<S>, st: SearchState<S, A>, i: int)
    requires Covered(p, k, st) && 0 <= i < |st.frontier|
    requires st.frontier[i].item.state in st.visited
    ensures Covered(p, k, SearchState(Remove(st.frontier, i), st.visited, st.expanded))
  {
    var f := st.frontier;
    var rest := Remove(f, i);
    forall n, t | n in st.expanded && t in p.successors(n.state) && t.next !in st.visited
      ensures exists e :: e in rest && e.item.state == t.next && Weight(k, e.item) <= Weight(k, n) + StepWeight(k, t)
    {
      var e :| e in f && e.item.state == t.next && Weight(k, e.item) <= Weight(k, n) + StepWeight(k, t);
      assert e in rest;
    }
  }

  /** Discarding an entry whose state was already visited keeps the invariant. */
  lemma DiscardKeepsInv<S(!new), A(!new)>(p: Problem<S, A>, k: Strategy<S>, states: set<S>, st: SearchState<S, A>, i: int)
    requires Inv(p, k, states, st) && MayPop(DisciplineOf(k), st.frontier, i)
    requires st.frontier[i].item.state in st.visited
    ensures Step(p, k, st, i) == Continue(SearchState(Remove(st.frontier, i), st.visited, st.expanded))
    ensures Inv(p, k, states, SearchState(Remove(st.frontier, i), st.visited, st.expanded))
  {
    var f := st.frontier;
    var st' := SearchState(Remove(f, i), st.visited, st.expanded);
    FewerPendingKeeps(p, k, states, st, st');
    DiscardKeepsCovered(p, k, st, i);
    if k.BreadthFirst? {
      assert Remove(f, i) == f[1..];
    }
    assert Layered(k, st');
  }

  lemma ChildFacts<S(!new), A(!new)>(p: Problem<S, A>, states: set<S>, n: Node<S, A>, t: Transition<S, A>)
    requires ClosedUnder(p, states) && n.state in states && t in p.successors(n.state)
    requires Leads(p, p.start, n.actions, n.state, n.cost)
    ensures Child(n, t).state in states
    ensures Leads(p, p.start, Child(n, t).actions, Child(n, t).state, Child(n, t).cost)
  {
    LeadsExtend(p, p.start, n.actions, n.state, n.cost, t);
  }

  /** Every pushed entry extends the popped path by one successor, and stays
      inside the state graph. */
  lemma PushedFacts<S(!new), A(!new)>(p: Problem<S, A>, k: Strategy<S>, states: set<S>, n: Node<S, A>, visited: set<S>)
    requires ClosedUnder(p, states) && n.state in states
    requires Leads(p, p.start, n.actions, n.state, n.cost)
    ensures forall e :: e in Pushes(k, n, p.successors(n.state), visited) ==>
              && e.item.state in states
              && e.key == Key(k, e.item)
              && Leads(p, p.start, e.item.actions, e.item.state, e.item.cost)
              && Weight(k, n) <= Weight(k, e.item)
              && (k.BreadthFirst? ==> Weight(k, e.item) == Weight(k, n) + 1)
  {
    var ts := p.successors(n.state);
    PushedWeights(k, n, ts, visited);
    forall e | e in Pushes(k, n, ts, visited)
      ensures e.item.state in states && Leads(p, p.start, e.item.actions, e.item.state, e.item.cost)
    {
      var t :| t in ts && e.item == Child(n, t);
      ChildFacts(p, states, n, t);
    }
  }

  /** After an expansion every successor of every expanded node is visited
      or pending. */
  lemma ExpandKeepsCovered<S(!new), A(!new)>(p: Problem<S, A>, k: Strategy<S>, st: SearchState<S, A>, i: int)
    requires Covered(p, k, st) && 0 <= i < |st.frontier|
    ensures var n := st.frontier[i].item;
            var visited := st.visited + {n.state};
            var frontier := Remove(st.frontier, i) + Pushes(k, n, p.successors(n.state), visited);
            Covered(p, k, SearchState(frontier, visited, st.expanded + [n]))
  {
    var f := st.frontier;
    var n := f[i].item;
    var visited := st.visited + {n.state};
    var frontier := Remove(f, i) + Pushes(k, n, p.successors(n.state), visited);
    forall t | t in p.successors(n.state) && t.next !in visited
      ensures exists e :: e in frontier && e.item.state == t.next && Weight(k, e.item) <= Weight(k, n) + StepWeight(k, t)
    {
      PushesEveryUnvisited(k, n, p.successors(n.state), visited, t);
      var e := Enter(k, Child(n, t));
      assert e in frontier;
    }
    forall m, t | m in st.expanded && t in p.successors(m.state) && t.next !in visited
      ensures exists e :: e in frontier && e.item.state == t.next && Weight(k, e.item) <= Weight(k, m) + StepWeight(k, t)
    {
      var e :| e in f && e.item.state == t.next && Weight(k, e.item) <= Weight(k, m) + StepWeight(k, t);
      assert e in frontier;
    }
  }

  /** The frontier after expanding the entry at `i`: the remaining entries
      followed by the pushes for its unvisited successors. */
  function ExpandedFrontier<S, A>(p: Problem<S, A>, k: Strategy<S>, st: SearchState<S, A>, i: int): seq<Entry<Node<S, A>>>
    requires 0 <= i < |st.frontier|
  {
    var n := st.frontier[i].item;
    Remove(st.frontier, i) + Pushes(k, n, p.successors(n.state), st.visited + {n.state})
  }

  /** Breadth-first and uniform-cost search still expand nothing heavier
      than what is pending after an expansion. */
  lemma ExpandKeepsOrdered<S(!new), A(!new)>(p: Problem<S, A>, k: Strategy<S>, st: SearchState<S, A>, i: int)
    requires k.BreadthFirst? || k.UniformCost?
    requires Sound(p, k, st) && Ordered(k, st) && Layered(k, st)
    requires MayPop(DisciplineOf(k), st.frontier, i)
    ensures Ordered(k, SearchState(ExpandedFrontier(p, k, st, i), Popped(st, i).visited, Popped(st, i).expanded))
  {
    var f := st.frontier;
    var n := f[i].item;
    var ts := p.successors(n.state);
    var visited := st.visited + {n.state};
    var rest := Remove(f, i);
    var pushed := Pushes(k, n, ts, visited);
    PopKeepsOrder(p, k, st, i);
    PushedWeights(k, n, ts, visited);
    assert ExpandedFrontier(p, k, st, i) == rest + pushed;
    assert f[i] in f;
    forall m: Node<S, A>, e: Entry<Node<S, A>> | m in st.expanded + [n] && e in rest + pushed
      ensures Weight(k, m) <= Weight(k, e.item)
    {
      if e in rest {
        assert e in f;
      }
    }
  }

  /** Pushed entries are one step heavier than the node they extend. */
  lemma PushedWeights<S, A>(k: Strategy<S>, n: Node<S, A>, ts: seq<Transition<S, A>>, visited: set<S>)
    ensures forall e :: e in Pushes(k, n, ts, visited) ==>
              && Weight(k, n) <= Weight(k, e.item)
              && (k.BreadthFirst? ==> Weight(k, e.item) == Weight(k, n) + 1)
  {
    forall e | e in Pushes(k, n, ts, visited)
      ensures Weight(k, n) <= Weight(k, e.item)
      ensures k.BreadthFirst? ==> Weight(k, e.item) == Weight(k, n) + 1
    {
      var t :| t in ts && e.item == Child(n, t);
    }
  }

  /** Appending entries of weight `w` to a sorted frontier whose entries
      weigh at most `w` keeps it sorted and bounded by `w`. */
  lemma AppendKeepsSorted<S, A>(k: Strategy<S>, rest: seq<Entry<Node<S, A>>>, pushed: seq<Entry<Node<S, A>>>, w: int)
    requires forall a, b :: 0 <= a < b < |rest| ==> Weight(k, rest[a].item) <= Weight(k, rest[b].item)
    requires forall e :: e in rest ==> Weight(k, e.item) <= w
    requires forall e :: e in pushed ==> Weight(k, e.item) == w
    ensures var g := rest + pushed;
            && (forall a, b :: 0 <= a < b < |g| ==> Weight(k, g[a].item) <= Weight(k, g[b].item))
            && (forall e :: e in g ==> Weight(k, e.item) <= w)
  {
    var g := rest + pushed;
    forall a, b | 0 <= a < b < |g|
      ensures Weight(k, g[a].item) <= Weight(k, g[b].item)
    {
      if b >= |rest| {
        assert g[b] in pushed;
        if a < |rest| {
          assert g[a] in rest;
        } else {
          assert g[a] in pushed;
        }
      }
    }
  }

  /** Behind its head, the breadth-first queue is sorted and no entry is
      more than one step deeper than the head. */
  lemma QueueTailLayered<S(!new), A(!new)>(p: Problem<S, A>, k: Strategy<S>, st: SearchState<S, A>)
    requires k.BreadthFirst?
    requires Started(p, k, st) && Ordered(k, st) && Layered(k, st) && |st.frontier| > 0
    ensures var rest := Remove(st.frontier, 0);
            && (forall a, b :: 0 <= a < b < |rest| ==> Weight(k, rest[a].item) <= Weight(k, rest[b].item))
            && (forall e :: e in rest ==> Weight(k, e.item) <= Weight(k, st.frontier[0].item) + 1)
  {
    var f := st.frontier;
    var rest := Remove(f, 0);
    forall a, b | 0 <= a < b < |rest|
      ensures Weight(k, rest[a].item) <= Weight(k, rest[b].item)
    {
      assert rest[a] == f[a + 1] && rest[b] == f[b + 1];
    }
    if |st.expanded| > 0 {
      assert Last(st.expanded) in st.expanded;
      assert f[0] in f;
    }
  }

  /** A sorted frontier no entry of which is more than one step deeper than
      the node just expanded is layered. */
  lemma LayeredAfter<S, A>(k: Strategy<S>, g: seq<Entry<Node<S, A>>>, visited: set<S>, expanded: seq<Node<S, A>>, n: Node<S, A>)
    requires forall a, b :: 0 <= a < b < |g| ==> Weight(k, g[a].item) <= Weight(k, g[b].item)
    requires forall e :: e in g ==> Weight(k, e.item) <= Weight(k, n) + 1
    ensures Layered(k, SearchState(g, visited, expanded + [n]))
  {
    assert Last(expanded + [n]) == n;
  }

  /** The breadth-first queue stays sorted and within two depths across an
      expansion. */
  lemma ExpandKeepsLayered<S(!new), A(!new)>(p: Problem<S, A>, k: Strategy<S>, st: SearchState<S, A>, i: int)
    requires k.BreadthFirst?
    requires Started(p, k, st) && Ordered(k, st) && Layered(k, st)
    requires MayPop(DisciplineOf(k), st.frontier, i)
    ensures Layered(k, SearchState(ExpandedFrontier(p, k, st, i), Popped(st, i).visited, Popped(st, i).expanded))
  {
    var f := st.frontier;
    var n := f[0].item;
    var ts := p.successors(n.state);
    var visited := st.visited + {n.state};
    QueueTailLayered(p, k, st);
    PushedWeights(k, n, ts, visited);
    AppendKeepsSorted(k, Remove(f, 0), Pushes(k, n, ts, visited), Weight(k, n) + 1);
    LayeredAfter(k, Remove(f, 0) + Pushes(k, n, ts, visited), visited, st.expanded, n);
  }

  /** Expanding a new, non-goal state keeps the invariant. */
  lemma ExpandKeepsInv<S(!new), A(!new)>(p: Problem<S, A>, k: Strategy<S>, states: set<S>, st: SearchState<S, A>, i: int)
    requires Inv(p, k, states, st) && MayPop(DisciplineOf(k), st.frontier, i)
    requires st.frontier[i].item.state !in st.visited
    requires !p.isGoal(st.frontier[i].item.state)
    ensures Inv(p, k, states, Step(p, k, st, i).st)
  {
    var n := st.frontier[i].item;
    var visited := st.visited + {n.state};
    var st' := SearchState(ExpandedFrontier(p, k, st, i), visited, st.expanded + [n]);
    assert Step(p, k, st, i).st == st';
    PopKeepsBookkeeping(p, k, states, st, i);
    PopKeepsOptimal(p, k, states, st, i);
    PushedFacts(p, k, states, n, visited);
    ExpandKeepsCovered(p, k, st, i);
    if k.BreadthFirst? || k.UniformCost? {
      ExpandKeepsOrdered(p, k, st, i);
    }
    if k.BreadthFirst? {
      ExpandKeepsLayered(p, k, st, i);
    }
    assert Unsolved(p, st');
  }

  /** Facts about the expanded nodes once the loop stops on a goal. */
  ghost predicate SolvedBy<S(!new), A(!new)>(p: Problem<S, A>, k: Strategy<S>, states: set<S>, st: SearchState<S, A>, plan: seq<A>)
  {
    && |st.expanded| > 0
    && st.expanded[0] == Root(p)
    && plan == Last(st.expanded).actions
    && p.isGoal(Last(st.expanded).state)
    && (forall a :: 0 <= a < |st.expanded| - 1 ==> !p.isGoal(st.expanded[a].state))
    && st.visited <= states
    && Sound(p, k, st)
    && ExpandedOnce(st)
    && ((k.BreadthFirst? || k.UniformCost?) ==>
          && (forall a, b :: 0 <= a < b < |st.expanded| ==> Weight(k, st.expanded[a]) <= Weight(k, st.expanded[b]))
          && (forall path, goal, cost :: Leads(p, p.start, path, goal, cost) && p.isGoal(goal) ==>
                Weight(k, Last(st.expanded)) <= PathWeight(k, path, cost)))
  }

  /** Popping a goal makes it the last expanded node and the only goal
      among them. */
  lemma PoppedGoalIsFirst<S, A>(p: Problem<S, A>, st: SearchState<S, A>, i: int)
    requires Unsolved(p, st) && 0 <= i < |st.frontier| && p.isGoal(st.frontier[i].item.state)
    ensures Last(Popped(st, i).expanded) == st.frontier[i].item
    ensures forall a :: 0 <= a < |Popped(st, i).expanded| - 1 ==> !p.isGoal(Popped(st, i).expanded[a].state)
  {
    var ex := Popped(st, i).expanded;
    forall a | 0 <= a < |ex| - 1
      ensures !p.isGoal(ex[a].state)
    {
      assert ex[a] == st.expanded[a];
      assert st.expanded[a] in st.expanded;
    }
  }

  /** Stopping on a goal: the plan is the goal node's action list, and under
      breadth-first and uniform-cost search no goal path is lighter. */
  lemma GoalStepSolves<S(!new), A(!new)>(p: Problem<S, A>, k: Strategy<S>, states: set<S>, st: SearchState<S, A>, i: int)
    requires Inv(p, k, states, st) && MayPop(DisciplineOf(k), st.frontier, i)
    requires st.frontier[i].item.state !in st.visited
    requires p.isGoal(st.frontier[i].item.state)
    ensures Step(p, k, st, i).Goal?
    ensures SolvedBy(p, k, states, Step(p, k, st, i).st, Step(p, k, st, i).plan)
  {
    var n := st.frontier[i].item;
    var st' := Popped(st, i);
    assert Step(p, k, st, i) == Goal(st', n.actions);
    PopKeepsBookkeeping(p, k, states, st, i);
    PoppedGoalIsFirst(p, st, i);
    if k.BreadthFirst? || k.UniformCost? {
      PopKeepsOrder(p, k, st, i);
      NoLighterGoal(p, k, states, st, i);
    }
  }

  /** The first goal popped is at least as light as every path to a goal. */
  lemma NoLighterGoal<S(!new), A(!new)>(p: Problem<S, A>, k: Strategy<S>, states: set<S>, st: SearchState<S, A>, i: int)
    requires k.BreadthFirst? || k.UniformCost?
    requires Inv(p, k, states, st) && MayPop(DisciplineOf(k), st.frontier, i)
    ensures forall path, goal, cost :: Leads(p, p.start, path, goal, cost) && p.isGoal(goal) ==>
              Weight(k, st.frontier[i].item) <= PathWeight(k, path, cost)
  {
    forall path, goal, cost | Leads(p, p.start, path, goal, cost) && p.isGoal(goal)
      ensures Weight(k, st.frontier[i].item) <= PathWeight(k, path, cost)
    {
      assert goal !in st.visited;
      PopIsOptimal(p, k, states, st, i, path, goal, cost);
    }
  }

  lemma NewStateShrinksPending<S>(states: set<S>, visited: set<S>, s: S)
    requires s in states && s !in visited
    ensures |states - (visited + {s})| < |states - visited|
  {
    var pending := states - visited;
    assert s in pending;
    assert states - (visited + {s}) == pending - {s};
  }

  /** One iteration keeps the invariant or stops on a goal, and either
      visits a new state of the finite graph or shrinks the frontier. */
  lemma StepKeepsInv<S(!new), A(!new)>(p: Problem<S, A>, k: Strategy<S>, states: set<S>, st: SearchState<S, A>, i: int)
    requires Inv(p, k, states, st) && MayPop(DisciplineOf(k), st.frontier, i)
    ensures var r := Step(p, k, st, i);
            && (r.Continue? ==> Inv(p, k, states, r.st))
            && (r.Goal? ==> SolvedBy(p, k, states, r.st, r.plan))
            && (r.Continue? ==>
                  || |states - r.st.visited| < |states - st.visited|
                  || (r.st.visited == st.visited && |r.st.frontier| < |st.frontier|))
  {
    var n := st.frontier[i].item;
    if n.state in st.visited {
      DiscardKeepsInv(p, k, states, st, i);
    } else {
      PoppedWithin(st, states, i);
      NewStateShrinksPending(states, st.visited, n.state);
      if p.isGoal(n.state) {
        GoalStepSolves(p, k, states, st, i);
      } else {
        ExpandKeepsInv(p, k, states, st, i);
      }
    }
  }

  /** When the frontier runs out, every state reachable from the start was
      expanded and none is a goal. */
  lemma ExhaustedMeansUnreachable<S(!new), A(!new)>(p: Problem<S, A>, k: Strategy<S>, states: set<S>, st: SearchState<S, A>)
    requires Inv(p, k, states, st) && st.frontier == []
    ensures |st.expanded| > 0 && st.expanded[0] == Root(p)
    ensures !GoalReachable(p)
  {
    assert |st.expanded| > 0;
    assert st.expanded[0] in st.expanded;
    forall s, t | s in st.visited && t in p.successors(s)
      ensures t.next in st.visited
    {
      var n :| n in st.expanded && n.state == s;
    }
    forall path | ReachesGoal(p, path)
      ensures false
    {
      var goal, cost :| Leads(p, p.start, path, goal, cost) && p.isGoal(goal);
      ClosedSetHoldsReachable(p, st.visited, p.start, path, goal, cost);
    }
  }
}
