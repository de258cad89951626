/** Pacman's alpha-beta agent: minimax over the same moves, where each
    turn stops trying moves once the running best lies strictly outside the
    window (alpha, beta) the caller passed down. */
module AlphaBetaSearch {
  import opened ExtReals
  import opened Games
  import opened GameValues
  import opened MinimaxSearch

  /** pacai's inner `alphaBeta(state, depth, agentIndex, alpha, beta)`.
      An inner node starts from its first move as the action. */
  function AlphaBeta<G, Act(==,!new)>(g: Game<G, Act>, eval: G -> ExtReal, s: G, depth: nat, agent: nat,
                                     alpha: ExtReal, beta: ExtReal): (r: Scored<ExtReal, Act>)
    requires agent < g.agents
    ensures Leaf(g, s, depth) || Moves(g, s, agent) == [] ==> r == Scored(eval(s), None)
    ensures !Leaf(g, s, depth) && Moves(g, s, agent) != [] ==> r.action.Some? && r.action.value in Moves(g, s, agent)
    decreases depth, g.agents - agent, 1, 0
  {
    if Leaf(g, s, depth) then Scored(eval(s), None)
    else
      var ms := Moves(g, s, agent);
      if ms == [] then Scored(eval(s), None)
      else if agent == 0 then MaxTurn(g, eval, s, depth, agent, ms, 0, alpha, beta, Scored(NegInf, Some(ms[0])))
      else MinTurn(g, eval, s, depth, agent, ms, 0, alpha, beta, Scored(PosInf, Some(ms[0])))
  }

  /** Pacman's loop from move `i` on: raise the running best on a strictly
      better score, raise alpha to it, and stop once alpha exceeds beta. */
  function MaxTurn<G, Act(==,!new)>(g: Game<G, Act>, eval: G -> ExtReal, s: G, depth: nat, agent: nat,
                                   ms: seq<Act>, i: nat, alpha: ExtReal, beta: ExtReal,
                                   best: Scored<ExtReal, Act>): (r: Scored<ExtReal, Act>)
    requires agent < g.agents && depth > 0 && i <= |ms|
    ensures r == best || exists j :: i <= j < |ms| && r.action == Some(ms[j])
    decreases depth, g.agents - agent, 0, |ms| - i
  {
    if i == |ms| then best
    else
      var score := AlphaBeta(g, eval, Child(g, s, agent, ms[i]), NextDepth(g, depth, agent), NextAgent(g, agent), alpha, beta).value;
      var best' := if Lt(best.value, score) then Scored(score, Some(ms[i])) else best;
      var alpha' := Max(alpha, best'.value);
      if Lt(beta, alpha') then best'
      else MaxTurn(g, eval, s, depth, agent, ms, i + 1, alpha', beta, best')
  }

  /** A ghost's loop from move `i` on: lower the running best on a strictly
      lower score, lower beta to it, and stop once beta falls below alpha. */
  function MinTurn<G, Act(==,!new)>(g: Game<G, Act>, eval: G -> ExtReal, s: G, depth: nat, agent: nat,
                                   ms: seq<Act>, i: nat, alpha: ExtReal, beta: ExtReal,
                                   best: Scored<ExtReal, Act>): (r: Scored<ExtReal, Act>)
    requires agent < g.agents && depth > 0 && i <= |ms|
    ensures r == best || exists j :: i <= j < |ms| && r.action == Some(ms[j])
    decreases depth, g.agents - agent, 0, |ms| - i
  {
    if i == |ms| then best
    else
      var score := AlphaBeta(g, eval, Child(g, s, agent, ms[i]), NextDepth(g, depth, agent), NextAgent(g, agent), alpha, beta).value;
      var best' := if Lt(score, best.value) then Scored(score, Some(ms[i])) else best;
      var beta' := Min(beta, best'.value);
      if Lt(beta', alpha) then best'
      else MinTurn(g, eval, s, depth, agent, ms, i + 1, alpha, beta', best')
  }

  /** `v` is a fail-soft answer for the true value `truth` in the window
      (alpha, beta): exact inside the window, an upper bound no larger than
      alpha when the truth is at most alpha, a lower bound no smaller than
      beta when the truth is at least beta. */
  predicate FailSoft(alpha: ExtReal, beta: ExtReal, v: ExtReal, truth: ExtReal)
  {
    && (Le(truth, alpha) ==> Le(truth, v) && Le(v, alpha))
    && (Le(beta, truth) ==> Le(beta, v) && Le(v, truth))
    && (Lt(alpha, truth) && Lt(truth, beta) ==> v == truth)
  }

  /** Over the full window a fail-soft answer is the value itself. */
  lemma FullWindowIsExact(v: ExtReal, truth: ExtReal)
    requires FailSoft(NegInf, PosInf, v, truth)
    ensures v == truth
  {
  }

  /** Folding one more child into Pacman's running best keeps it fail-soft
      for the maximum so far, given the child was searched with alpha
      raised to the running best. */
  lemma MaxStep(alpha: ExtReal, beta: ExtReal, value: ExtReal, w: ExtReal, v: ExtReal, t: ExtReal)
    requires Le(alpha, beta) && Le(Max(alpha, value), beta)
    requires FailSoft(alpha, beta, value, w)
    requires FailSoft(Max(alpha, value), beta, v, t)
    ensures FailSoft(alpha, beta, Max(value, v), Max(w, t))
  {
  }

  /** One turn of Pacman's loop: the strictly-better update computes the
      maximum, stays fail-soft, and the raised alpha is the caller's alpha
      raised to the new best. */
  lemma MaxLoopStep(alpha0: ExtReal, beta: ExtReal, value: ExtReal, w: ExtReal, v: ExtReal, t: ExtReal)
    requires Le(alpha0, beta) && Le(Max(alpha0, value), beta)
    requires FailSoft(alpha0, beta, value, w)
    requires FailSoft(Max(alpha0, value), beta, v, t)
    ensures var value' := if Lt(value, v) then v else value;
            && value' == Max(value, v)
            && FailSoft(alpha0, beta, value', Max(w, t))
            && Max(Max(alpha0, value), value') == Max(alpha0, value')
  {
    MaxStep(alpha0, beta, value, w, v, t);
  }

  /** A running best above beta stays fail-soft whatever the moves not tried
      would add to the maximum. */
  lemma MaxCut(alpha: ExtReal, beta: ExtReal, x: ExtReal, w: ExtReal, w': ExtReal)
    requires Le(alpha, beta) && FailSoft(alpha, beta, x, w) && Lt(beta, x) && Le(w, w')
    ensures FailSoft(alpha, beta, x, w')
  {
  }

  lemma MinStep(alpha: ExtReal, beta: ExtReal, value: ExtReal, w: ExtReal, v: ExtReal, t: ExtReal)
    requires Le(alpha, beta) && Le(alpha, Min(beta, value))
    requires FailSoft(alpha, beta, value, w)
    requires FailSoft(alpha, Min(beta, value), v, t)
    ensures FailSoft(alpha, beta, Min(value, v), Min(w, t))
  {
  }

  /** One turn of a ghost's loop, dually. */
  lemma MinLoopStep(alpha: ExtReal, beta0: ExtReal, value: ExtReal, w: ExtReal, v: ExtReal, t: ExtReal)
    requires Le(alpha, beta0) && Le(alpha, Min(beta0, value))
    requires FailSoft(alpha, beta0, value, w)
    requires FailSoft(alpha, Min(beta0, value), v, t)
    ensures var value' := if Lt(v, value) then v else value;
            && value' == Min(value, v)
            && FailSoft(alpha, beta0, value', Min(w, t))
            && Min(Min(beta0, value), value') == Min(beta0, value')
  {
    MinStep(alpha, beta0, value, w, v, t);
  }

  lemma MinCut(alpha: ExtReal, beta: ExtReal, x: ExtReal, w: ExtReal, w': ExtReal)
    requires Le(alpha, beta) && FailSoft(alpha, beta, x, w) && Lt(x, alpha) && Le(w', w)
    ensures FailSoft(alpha, beta, x, w')
  {
  }

  /** Alpha-beta is a fail-soft search: for every window with alpha <= beta
      its score relates to the game value as `FailSoft` says. */
  lemma {:induction false} AlphaBetaFailSoft<G, Act(!new)>(g: Game<G, Act>, eval: G -> ExtReal, s: G, depth: nat, agent: nat,
                                                            alpha: ExtReal, beta: ExtReal)
    requires agent < g.agents && Le(alpha, beta)
    ensures FailSoft(alpha, beta, AlphaBeta(g, eval, s, depth, agent, alpha, beta).value, Value(g, eval, s, depth, agent))
    decreases depth, g.agents - agent, 1, 0, 0
  {
    var ms := Moves(g, s, agent);
    if !Leaf(g, s, depth) && ms != [] {
      var vs := ChildValues(g, eval, s, depth, agent);
      assert vs[..0] == [];
      assert vs[..|ms|] == vs;
      InnerValue(g, eval, s, depth, agent);
      if agent == 0 {
        MaxTurnFailSoft(g, eval, s, depth, agent, 0, alpha, alpha, beta, Scored(NegInf, Some(ms[0])));
      } else {
        MinTurnFailSoft(g, eval, s, depth, agent, 0, alpha, beta, beta, Scored(PosInf, Some(ms[0])));
      }
    }
  }

  /** One turn of Pacman's loop over the window (alpha0, beta): the new
      running best is fail-soft for one more child, alpha is raised to it,
      and the loop either stops there or carries on with both. */
  lemma MaxTurnOnce<G, Act(!new)>(g: Game<G, Act>, eval: G -> ExtReal, s: G, depth: nat, agent: nat,
                                  i: nat, alpha0: ExtReal, alpha: ExtReal, beta: ExtReal,
                                  best: Scored<ExtReal, Act>)
      returns (best': Scored<ExtReal, Act>, alpha': ExtReal)
    requires agent < g.agents && !Leaf(g, s, depth) && i < |Moves(g, s, agent)|
    requires Le(alpha0, beta) && alpha == Max(alpha0, best.value) && Le(alpha, beta)
    requires FailSoft(alpha0, beta, best.value, MaxOf(ChildValues(g, eval, s, depth, agent)[..i]))
    ensures FailSoft(alpha0, beta, best'.value, MaxOf(ChildValues(g, eval, s, depth, agent)[..i + 1]))
    ensures alpha' == Max(alpha0, best'.value)
    ensures MaxTurn(g, eval, s, depth, agent, Moves(g, s, agent), i, alpha, beta, best) ==
              if Lt(beta, alpha') then best' else MaxTurn(g, eval, s, depth, agent, Moves(g, s, agent), i + 1, alpha', beta, best')
    decreases depth, g.agents - agent, 0, |Moves(g, s, agent)| - i, 0
  {
    var ms := Moves(g, s, agent);
    var vs := ChildValues(g, eval, s, depth, agent);
    var child := Child(g, s, agent, ms[i]);
    var nd, na := NextDepth(g, depth, agent), NextAgent(g, agent);
    var score := AlphaBeta(g, eval, child, nd, na, alpha, beta).value;
    AlphaBetaFailSoft(g, eval, child, nd, na, alpha, beta);
    best' := if Lt(best.value, score) then Scored(score, Some(ms[i])) else best;
    MaxOfSnoc(vs, i);
    MaxLoopStep(alpha0, beta, best.value, MaxOf(vs[..i]), score, vs[i]);
    alpha' := Max(alpha, best'.value);
  }

  /** Pacman's loop stays fail-soft for the window (alpha0, beta). */
  lemma {:induction false} MaxTurnFailSoft<G, Act(!new)>(g: Game<G, Act>, eval: G -> ExtReal, s: G, depth: nat, agent: nat,
                                                          i: nat, alpha0: ExtReal, alpha: ExtReal, beta: ExtReal,
                                                          best: Scored<ExtReal, Act>)
    requires agent < g.agents && !Leaf(g, s, depth) && i <= |Moves(g, s, agent)|
    requires Le(alpha0, beta) && alpha == Max(alpha0, best.value) && Le(alpha, beta)
    requires FailSoft(alpha0, beta, best.value, MaxOf(ChildValues(g, eval, s, depth, agent)[..i]))
    ensures FailSoft(alpha0, beta, MaxTurn(g, eval, s, depth, agent, Moves(g, s, agent), i, alpha, beta, best).value,
                     MaxOf(ChildValues(g, eval, s, depth, agent)))
    decreases depth, g.agents - agent, 0, |Moves(g, s, agent)| - i, 1
  {
    var ms := Moves(g, s, agent);
    var vs := ChildValues(g, eval, s, depth, agent);
    if i == |ms| {
      assert vs[..i] == vs;
    } else {
      var best', alpha' := MaxTurnOnce(g, eval, s, depth, agent, i, alpha0, alpha, beta, best);
      if Lt(beta, alpha') {
        MaxOfPrefix(vs, i + 1);
        MaxCut(alpha0, beta, best'.value, MaxOf(vs[..i + 1]), MaxOf(vs));
      } else {
        MaxTurnFailSoft(g, eval, s, depth, agent, i + 1, alpha0, alpha', beta, best');
      }
    }
  }

  /** One turn of a ghost's loop over the window (alpha, beta0), dually. */
  lemma MinTurnOnce<G, Act(!new)>(g: Game<G, Act>, eval: G -> ExtReal, s: G, depth: nat, agent: nat,
                                  i: nat, alpha: ExtReal, beta0: ExtReal, beta: ExtReal,
                                  best: Scored<ExtReal, Act>)
      returns (best': Scored<ExtReal, Act>, beta': ExtReal)
    requires agent < g.agents && !Leaf(g, s, depth) && i < |Moves(g, s, agent)|
    requires Le(alpha, beta0) && beta == Min(beta0, best.value) && Le(alpha, beta)
    requires FailSoft(alpha, beta0, best.value, MinOf(ChildValues(g, eval, s, depth, agent)[..i]))
    ensures FailSoft(alpha, beta0, best'.value, MinOf(ChildValues(g, eval, s, depth, agent)[..i + 1]))
    ensures beta' == Min(beta0, best'.value)
    ensures MinTurn(g, eval, s, depth, agent, Moves(g, s, agent), i, alpha, beta, best) ==
              if Lt(beta', alpha) then best' else MinTurn(g, eval, s, depth, agent, Moves(g, s, agent), i + 1, alpha, beta', best')
    decreases depth, g.agents - agent, 0, |Moves(g, s, agent)| - i, 0
  {
    var ms := Moves(g, s, agent);
    var vs := ChildValues(g, eval, s, depth, agent);
    var child := Child(g, s, agent, ms[i]);
    var nd, na := NextDepth(g, depth, agent), NextAgent(g, agent);
    var score := AlphaBeta(g, eval, child, nd, na, alpha, beta).value;
    AlphaBetaFailSoft(g, eval, child, nd, na, alpha, beta);
    best' := if Lt(score, best.value) then Scored(score, Some(ms[i])) else best;
    MinOfSnoc(vs, i);
    MinLoopStep(alpha, beta0, best.value, MinOf(vs[..i]), score, vs[i]);
    beta' := Min(beta, best'.value);
  }

  /** A ghost's loop stays fail-soft for the window (alpha, beta0). */
  lemma {:induction false} MinTurnFailSoft<G, Act(!new)>(g: Game<G, Act>, eval: G -> ExtReal, s: G, depth: nat, agent: nat,
                                                          i: nat, alpha: ExtReal, beta0: ExtReal, beta: ExtReal,
                                                          best: Scored<ExtReal, Act>)
    requires agent < g.agents && !Leaf(g, s, depth) && i <= |Moves(g, s, agent)|
    requires Le(alpha, beta0) && beta == Min(beta0, best.value) && Le(alpha, beta)
    requires FailSoft(alpha, beta0, best.value, MinOf(ChildValues(g, eval, s, depth, agent)[..i]))
    ensures FailSoft(alpha, beta0, MinTurn(g, eval, s, depth, agent, Moves(g, s, agent), i, alpha, beta, best).value,
                     MinOf(ChildValues(g, eval, s, depth, agent)))
    decreases depth, g.agents - agent, 0, |Moves(g, s, agent)| - i, 1
  {
    var ms := Moves(g, s, agent);
    var vs := ChildValues(g, eval, s, depth, agent);
    if i == |ms| {
      assert vs[..i] == vs;
    } else {
      var best', beta' := MinTurnOnce(g, eval, s, depth, agent, i, alpha, beta0, beta, best);
      if Lt(beta', alpha) {
        MinOfPrefix(vs, i + 1);
        MinCut(alpha, beta0, best'.value, MinOf(vs[..i + 1]), MinOf(vs));
      } else {
        MinTurnFailSoft(g, eval, s, depth, agent, i + 1, alpha, beta0, beta', best');
      }
    }
  }

  /** Started with the full window, alpha-beta computes the game value. */
  lemma AlphaBetaIsValue<G, Act(!new)>(g: Game<G, Act>, eval: G -> ExtReal, s: G, depth: nat, agent: nat)
    requires agent < g.agents
    ensures AlphaBeta(g, eval, s, depth, agent, NegInf, PosInf).value == Value(g, eval, s, depth, agent)
  {
    AlphaBetaFailSoft(g, eval, s, depth, agent, NegInf, PosInf);
    FullWindowIsExact(AlphaBeta(g, eval, s, depth, agent, NegInf, PosInf).value, Value(g, eval, s, depth, agent));
  }

  /** pacai's AlphaBetaAgent.getAction: the move alpha-beta picks for Pacman
      from the full window. */
  function AlphaBetaAction<G, Act(==,!new)>(g: Game<G, Act>, eval: G -> ExtReal, s: G, depth: nat): (a: Option<Act>)
    requires g.agents > 0
    ensures a.Some? ==> a.value in g.legal(s, 0) && a.value != g.stop
    ensures a.None? <==> Leaf(g, s, depth) || Moves(g, s, 0) == []
  {
    AlphaBeta(g, eval, s, depth, 0, NegInf, PosInf).action
  }

  /** Searched with beta = plus infinity, a child's score beats the running
      best exactly when its game value does, and is then that value. */
  lemma OpenAboveDecidesLikeValue(a: ExtReal, v: ExtReal, t: ExtReal)
    requires FailSoft(a, PosInf, v, t)
    ensures Lt(a, v) <==> Lt(a, t)
    ensures Lt(a, t) ==> v == t
  {
  }

  /** At the root, Pacman's alpha-beta loop makes the same updates as the
      minimax loop over the children's game values; it differs only in
      starting from the first move rather than from no move. */
  lemma {:induction false} RootTurnTracksMinimax<G, Act(!new)>(g: Game<G, Act>, eval: G -> ExtReal, s: G, depth: nat,
                                                                i: nat, best: Scored<ExtReal, Act>, mm: Scored<ExtReal, Act>)
    requires g.agents > 0 && !Leaf(g, s, depth) && Moves(g, s, 0) != [] && i <= |Moves(g, s, 0)|
    requires best.value == mm.value
    requires mm.action.Some? ==> best.action == mm.action
    requires mm.action.None? ==> best.action == Some(Moves(g, s, 0)[0])
    ensures var r := MaxTurn(g, eval, s, depth, 0, Moves(g, s, 0), i, best.value, PosInf, best);
            var m := Improve(true, Moves(g, s, 0), ChildValues(g, eval, s, depth, 0), i, mm);
            && r.value == m.value
            && (m.action.Some? ==> r.action == m.action)
            && (m.action.None? ==> r.action == Some(Moves(g, s, 0)[0]))
    decreases |Moves(g, s, 0)| - i
  {
    var ms := Moves(g, s, 0);
    var vs := ChildValues(g, eval, s, depth, 0);
    if i < |ms| {
      var child := Child(g, s, 0, ms[i]);
      var nd, na := NextDepth(g, depth, 0), NextAgent(g, 0);
      var score := AlphaBeta(g, eval, child, nd, na, best.value, PosInf).value;
      AlphaBetaFailSoft(g, eval, child, nd, na, best.value, PosInf);
      OpenAboveDecidesLikeValue(best.value, score, vs[i]);
      var best' := if Lt(best.value, score) then Scored(score, Some(ms[i])) else best;
      var mm' := if Lt(mm.value, vs[i]) then Scored(vs[i], Some(ms[i])) else mm;
      assert Max(best.value, best'.value) == best'.value;
      RootTurnTracksMinimax(g, eval, s, depth, i + 1, best', mm');
    }
  }

  /** From the full window, Pacman's alpha-beta move has the minimax value
      and is the minimax move; where minimax names no move because every
      child is worth minus infinity, alpha-beta returns the first move. */
  lemma AlphaBetaAgreesWithMinimax<G, Act(!new)>(g: Game<G, Act>, eval: G -> ExtReal, s: G, depth: nat)
    requires g.agents > 0
    ensures var ab := AlphaBeta(g, eval, s, depth, 0, NegInf, PosInf);
            var mm := Minimax(g, eval, s, depth, 0);
            && ab.value == mm.value
            && (mm.action.Some? ==> ab.action == mm.action)
            && (mm.action.None? && !Leaf(g, s, depth) && Moves(g, s, 0) != [] ==>
                  ab.action == Some(Moves(g, s, 0)[0]) && mm.value == NegInf)
  {
    AlphaBetaIsValue(g, eval, s, depth, 0);
    MinimaxIsValue(g, eval, s, depth, 0);
    var ms := Moves(g, s, 0);
    if !Leaf(g, s, depth) && ms != [] {
      MinimaxScansChildValues(g, eval, s, depth, 0);
      MinimaxPicksFirstBest(g, eval, s, depth, 0);
      RootTurnTracksMinimax(g, eval, s, depth, 0, Scored(NegInf, Some(ms[0])), Scored(NegInf, None));
    }
  }
}
