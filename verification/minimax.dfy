/** Pacman's minimax agent: a depth-limited minimax over all agents'
    moves, keeping the first move that strictly improves the running best
    score. */
module MinimaxSearch {
  import opened ExtReals
  import opened Games
  import opened GameValues

  /** The running best score before any move has been tried. */
  function Sentinel(maximize: bool): ExtReal
  {
    if maximize then NegInf else PosInf
  }

  /** The loop over the moves `ms` with child scores `scores`, from move `i`
      on: a move replaces the running best only when its score is strictly
      better for the agent to move. */
  function Improve<Act>(maximize: bool, ms: seq<Act>, scores: seq<ExtReal>, i: nat, best: Scored<ExtReal, Act>): (r: Scored<ExtReal, Act>)
    requires |scores| == |ms| && i <= |ms|
    ensures r == best || exists j :: i <= j < |ms| && r == Scored(scores[j], Some(ms[j]))
    decreases |ms| - i
  {
    if i == |ms| then best
    else
      var better := if maximize then Lt(best.value, scores[i]) else Lt(scores[i], best.value);
      Improve(maximize, ms, scores, i + 1, if better then Scored(scores[i], Some(ms[i])) else best)
  }

  /** `best` is what the loop holds after the first `i` moves: the best of
      their scores, no action while that is still the sentinel, and
      otherwise the first move reaching it. */
  ghost predicate PicksFirst<Act>(maximize: bool, ms: seq<Act>, scores: seq<ExtReal>, i: nat, best: Scored<ExtReal, Act>)
    requires i <= |ms| == |scores|
  {
    && best.value == (if maximize then MaxOf(scores[..i]) else MinOf(scores[..i]))
    && (best.action.None? <==> best.value == Sentinel(maximize))
    && (best.action.Some? ==>
          exists j :: 0 <= j < i && ms[j] == best.action.value && scores[j] == best.value &&
            forall l :: 0 <= l < j ==> scores[l] != best.value)
  }

  /** The loop ends holding the best score of all moves and the first move
      that reaches it, or no move when every score is the sentinel. */
  lemma {:induction false} ImproveFindsFirstBest<Act>(maximize: bool, ms: seq<Act>, scores: seq<ExtReal>, i: nat, best: Scored<ExtReal, Act>)
    requires |scores| == |ms| && i <= |ms|
    requires PicksFirst(maximize, ms, scores, i, best)
    ensures PicksFirst(maximize, ms, scores, |ms|, Improve(maximize, ms, scores, i, best))
    decreases |ms| - i
  {
    if i < |ms| {
      var better := if maximize then Lt(best.value, scores[i]) else Lt(scores[i], best.value);
      var next := if better then Scored(scores[i], Some(ms[i])) else best;
      MaxOfSnoc(scores, i);
      MinOfSnoc(scores, i);
      assert forall l :: 0 <= l < i ==> scores[..i][l] == scores[l];
      if better {
        assert forall l :: 0 <= l < i ==> scores[l] != scores[i];
      }
      assert PicksFirst(maximize, ms, scores, i + 1, next);
      ImproveFindsFirstBest(maximize, ms, scores, i + 1, next);
    }
  }

  /** pacai's inner `minimax(state, depth, agentIndex)`: the evaluation
      and no action at a leaf or when there is no move, otherwise the best
      child score for the agent to move and the first move reaching it. */
  function Minimax<G, Act(==,!new)>(g: Game<G, Act>, eval: G -> ExtReal, s: G, depth: nat, agent: nat): (r: Scored<ExtReal, Act>)
    requires agent < g.agents
    ensures Leaf(g, s, depth) || Moves(g, s, agent) == [] ==> r == Scored(eval(s), None)
    ensures r.action.Some? ==> r.action.value in Moves(g, s, agent)
    decreases depth, g.agents - agent
  {
    if Leaf(g, s, depth) then Scored(eval(s), None)
    else
      var ms := Moves(g, s, agent);
      if ms == [] then Scored(eval(s), None)
      else
        var scores := seq(|ms|, j requires 0 <= j < |ms| =>
                            Minimax(g, eval, Child(g, s, agent, ms[j]), NextDepth(g, depth, agent), NextAgent(g, agent)).value);
        Improve(agent == 0, ms, scores, 0, Scored(Sentinel(agent == 0), None))
  }

  /** Minimax computes the game value. */
  lemma {:induction false} MinimaxIsValue<G, Act(!new)>(g: Game<G, Act>, eval: G -> ExtReal, s: G, depth: nat, agent: nat)
    requires agent < g.agents
    ensures Minimax(g, eval, s, depth, agent).value == Value(g, eval, s, depth, agent)
    decreases depth, g.agents - agent, 1
  {
    var ms := Moves(g, s, agent);
    if !Leaf(g, s, depth) && ms != [] {
      var vs := ChildValues(g, eval, s, depth, agent);
      MinimaxScansChildValues(g, eval, s, depth, agent);
      ImproveFindsFirstBest(agent == 0, ms, vs, 0, Scored(Sentinel(agent == 0), None));
      InnerValue(g, eval, s, depth, agent);
      assert vs[..|ms|] == vs;
    }
  }

  /** At an inner node minimax runs its loop over the children's game
      values. */
  lemma {:induction false} MinimaxScansChildValues<G, Act(!new)>(g: Game<G, Act>, eval: G -> ExtReal, s: G, depth: nat, agent: nat)
    requires agent < g.agents && !Leaf(g, s, depth) && Moves(g, s, agent) != []
    ensures Minimax(g, eval, s, depth, agent) ==
              Improve(agent == 0, Moves(g, s, agent), ChildValues(g, eval, s, depth, agent), 0, Scored(Sentinel(agent == 0), None))
    decreases depth, g.agents - agent, 0
  {
    var ms := Moves(g, s, agent);
    var nd, na := NextDepth(g, depth, agent), NextAgent(g, agent);
    forall j | 0 <= j < |ms|
      ensures Minimax(g, eval, Child(g, s, agent, ms[j]), nd, na).value == Value(g, eval, Child(g, s, agent, ms[j]), nd, na)
    {
      MinimaxIsValue(g, eval, Child(g, s, agent, ms[j]), nd, na);
    }
    var scores := seq(|ms|, j requires 0 <= j < |ms| => Minimax(g, eval, Child(g, s, agent, ms[j]), nd, na).value);
    assert scores == ChildValues(g, eval, s, depth, agent);
  }

  /** At an inner node minimax holds the best child value and the first
      move reaching it; it names no move only when every child value is
      the sentinel (minus infinity for Pacman, plus infinity for a ghost). */
  lemma MinimaxPicksFirstBest<G, Act(!new)>(g: Game<G, Act>, eval: G -> ExtReal, s: G, depth: nat, agent: nat)
    requires agent < g.agents && !Leaf(g, s, depth) && Moves(g, s, agent) != []
    ensures PicksFirst(agent == 0, Moves(g, s, agent), ChildValues(g, eval, s, depth, agent),
                       |Moves(g, s, agent)|, Minimax(g, eval, s, depth, agent))
  {
    MinimaxScansChildValues(g, eval, s, depth, agent);
    ImproveFindsFirstBest(agent == 0, Moves(g, s, agent), ChildValues(g, eval, s, depth, agent), 0, Scored(Sentinel(agent == 0), None));
  }

  /** pacai's MinimaxAgent.getAction: the move minimax picks for Pacman,
      which is a legal move other than `stop` whenever there is one. */
  function MinimaxAction<G, Act(==,!new)>(g: Game<G, Act>, eval: G -> ExtReal, s: G, depth: nat): (a: Option<Act>)
    requires g.agents > 0
    ensures a.Some? ==> a.value in g.legal(s, 0) && a.value != g.stop
    ensures Leaf(g, s, depth) || Moves(g, s, 0) == [] ==> a.None?
  {
    Minimax(g, eval, s, depth, 0).action
  }
}
