/** The depth-limited game value every adversarial search aims at:
    the evaluation at a leaf, otherwise the best child value for the agent
    to move (largest for Pacman, smallest for a ghost). */
module GameValues {
  import opened ExtReals
  import opened Games

  function Value<G, Act(==,!new)>(g: Game<G, Act>, eval: G -> ExtReal, s: G, depth: nat, agent: nat): ExtReal
    requires agent < g.agents
    decreases depth, g.agents - agent
  {
    if Leaf(g, s, depth) then eval(s)
    else
      var ms := Moves(g, s, agent);
      if ms == [] then eval(s)
      else
        var vs := seq(|ms|, j requires 0 <= j < |ms| =>
                        Value(g, eval, Child(g, s, agent, ms[j]), NextDepth(g, depth, agent), NextAgent(g, agent)));
        if agent == 0 then MaxOf(vs) else MinOf(vs)
  }

  /** The values of the children of an inner node, in move order. */
  function ChildValues<G, Act(==,!new)>(g: Game<G, Act>, eval: G -> ExtReal, s: G, depth: nat, agent: nat): (vs: seq<ExtReal>)
    requires agent < g.agents && depth > 0
    ensures |vs| == |Moves(g, s, agent)|
  {
    var ms := Moves(g, s, agent);
    seq(|ms|, j requires 0 <= j < |ms| =>
          Value(g, eval, Child(g, s, agent, ms[j]), NextDepth(g, depth, agent), NextAgent(g, agent)))
  }

  /** The value of an inner node is the best of its children's values for
      the agent to move. */
  lemma InnerValue<G, Act(!new)>(g: Game<G, Act>, eval: G -> ExtReal, s: G, depth: nat, agent: nat)
    requires agent < g.agents && !Leaf(g, s, depth) && Moves(g, s, agent) != []
    ensures Value(g, eval, s, depth, agent) ==
              if agent == 0 then MaxOf(ChildValues(g, eval, s, depth, agent))
              else MinOf(ChildValues(g, eval, s, depth, agent))
  {
  }
}
