/** Pacman's expectimax agent: Pacman maximises, and every ghost is taken
    to pick each of its legal moves with equal probability. */
module ExpectimaxSearch {
  import opened Games

  /** Sum of a sequence of reals, folded from the front. */
  function Sum(xs: seq<real>): real
  {
    if xs == [] then 0.0 else Sum(xs[..|xs| - 1]) + xs[|xs| - 1]
  }

  /** Largest element of a non-empty sequence of reals. */
  function MaxReal(xs: seq<real>): (m: real)
    requires |xs| > 0
    ensures forall i :: 0 <= i < |xs| ==> xs[i] <= m
    ensures exists i :: 0 <= i < |xs| && xs[i] == m
  {
    if |xs| == 1 then xs[0]
    else
      var p := MaxReal(xs[..|xs| - 1]);
      assert forall i :: 0 <= i < |xs| - 1 ==> xs[..|xs| - 1][i] == xs[i];
      if p < xs[|xs| - 1] then xs[|xs| - 1] else p
  }

  /** Smallest element of a non-empty sequence of reals. */
  function MinReal(xs: seq<real>): (m: real)
    requires |xs| > 0
    ensures forall i :: 0 <= i < |xs| ==> m <= xs[i]
    ensures exists i :: 0 <= i < |xs| && xs[i] == m
  {
    if |xs| == 1 then xs[0]
    else
      var p := MinReal(xs[..|xs| - 1]);
      assert forall i :: 0 <= i < |xs| - 1 ==> xs[..|xs| - 1][i] == xs[i];
      if xs[|xs| - 1] < p then xs[|xs| - 1] else p
  }

  /** The expectimax value: the evaluation at a leaf, the largest child
      value on Pacman's turn and the mean child value on a ghost's turn. */
  function ExpValue<G, Act(==,!new)>(g: Game<G, Act>, eval: G -> real, s: G, depth: nat, agent: nat): real
    requires agent < g.agents
    decreases depth, g.agents - agent
  {
    if Leaf(g, s, depth) then eval(s)
    else
      var ms := Moves(g, s, agent);
      if ms == [] then eval(s)
      else
        var vs := seq(|ms|, j requires 0 <= j < |ms| =>
                        ExpValue(g, eval, Child(g, s, agent, ms[j]), NextDepth(g, depth, agent), NextAgent(g, agent)));
        if agent == 0 then MaxReal(vs) else Sum(vs) / (|vs| as real)
  }

  function ExpChildValues<G, Act(==,!new)>(g: Game<G, Act>, eval: G -> real, s: G, depth: nat, agent: nat): (vs: seq<real>)
    requires agent < g.agents && depth > 0
    ensures |vs| == |Moves(g, s, agent)|
  {
    var ms := Moves(g, s, agent);
    seq(|ms|, j requires 0 <= j < |ms| =>
          ExpValue(g, eval, Child(g, s, agent, ms[j]), NextDepth(g, depth, agent), NextAgent(g, agent)))
  }

  /** The expectimax value of an inner node in terms of its children's
      values. */
  lemma ExpInnerValue<G, Act(!new)>(g: Game<G, Act>, eval: G -> real, s: G, depth: nat, agent: nat)
    requires agent < g.agents && !Leaf(g, s, depth) && Moves(g, s, agent) != []
    ensures var vs := ExpChildValues(g, eval, s, depth, agent);
            ExpValue(g, eval, s, depth, agent) == if agent == 0 then MaxReal(vs) else Sum(vs) / (|vs| as real)
  {
  }

  /** Pacman's loop from move `i` on.  `best` is `None` while the running
      best is still minus infinity, which every real score beats. */
  function BestMove<Act>(ms: seq<Act>, scores: seq<real>, i: nat, best: Option<real>, action: Act): (r: Scored<real, Act>)
    requires |scores| == |ms| && i <= |ms|
    requires best.Some? || i < |ms|
    ensures r.action.Some?
    ensures (best.Some? && r == Scored(best.value, Some(action))) || exists j :: i <= j < |ms| && r == Scored(scores[j], Some(ms[j]))
    decreases |ms| - i
  {
    if i == |ms| then Scored(best.value, Some(action))
    else if best.None? || best.value < scores[i] then BestMove(ms, scores, i + 1, Some(scores[i]), ms[i])
    else BestMove(ms, scores, i + 1, best, action)
  }

  /** The sum of the scores each multiplied by `p`, folded from the front. */
  function Weighted(xs: seq<real>, p: real): real
  {
    if xs == [] then 0.0 else Weighted(xs[..|xs| - 1], p) + xs[|xs| - 1] * p
  }

  /** A ghost's loop from move `i` on: add each score weighted by the
      uniform probability `p`.  It adds to `total` the weighted scores it
      has not yet seen. */
  function Expectation(scores: seq<real>, i: nat, total: real, p: real): (r: real)
    requires i <= |scores|
    ensures r - total == Weighted(scores, p) - Weighted(scores[..i], p)
    decreases |scores| - i
  {
    if i == |scores| then
      assert scores[..i] == scores;
      total
    else
      assert scores[..i + 1][..i] == scores[..i];
      Expectation(scores, i + 1, total + scores[i] * p, p)
  }

  /** Weighting every score by `p` multiplies their sum by `p`. */
  lemma {:induction false} WeightedIsScaledSum(xs: seq<real>, p: real)
    ensures Weighted(xs, p) == Sum(xs) * p
    decreases |xs|
  {
    if xs != [] {
      WeightedIsScaledSum(xs[..|xs| - 1], p);
      Distributes(Sum(xs[..|xs| - 1]), xs[|xs| - 1], p);
    }
  }

  /** pacai's inner `expectimax(state, depth, agentIndex)`: the evaluation
      and no action at a leaf or when there is no move; on Pacman's turn the
      best child score and the first move reaching it; on a ghost's turn the
      probability-weighted sum of the child scores and the ghost's first
      move. */
  function Expectimax<G, Act(==,!new)>(g: Game<G, Act>, eval: G -> real, s: G, depth: nat, agent: nat): (r: Scored<real, Act>)
    requires agent < g.agents
    ensures r.action.None? <==> Leaf(g, s, depth) || Moves(g, s, agent) == []
    ensures r.action.None? ==> r.value == eval(s)
    ensures r.action.Some? ==> r.action.value in Moves(g, s, agent)
    decreases depth, g.agents - agent
  {
    if Leaf(g, s, depth) then Scored(eval(s), None)
    else
      var ms := Moves(g, s, agent);
      if ms == [] then Scored(eval(s), None)
      else
        var scores := seq(|ms|, j requires 0 <= j < |ms| =>
                            Expectimax(g, eval, Child(g, s, agent, ms[j]), NextDepth(g, depth, agent), NextAgent(g, agent)).value);
        if agent == 0 then BestMove(ms, scores, 0, None, ms[0])
        else Scored(Expectation(scores, 0, 0.0, 1.0 / (|ms| as real)), Some(ms[0]))
  }

  /** Extending a prefix by one element: the new maximum is that element
      when it beats the old one. */
  lemma MaxRealSnoc(xs: seq<real>, i: nat)
    requires 0 < i < |xs|
    ensures MaxReal(xs[..i + 1]) == if MaxReal(xs[..i]) < xs[i] then xs[i] else MaxReal(xs[..i])
  {
    assert xs[..i + 1][..i] == xs[..i];
  }

  /** `action` is the first of the first `n` moves whose score is `v`, and
      every score before it is below `v`. */
  ghost predicate FirstReaching<Act>(ms: seq<Act>, scores: seq<real>, n: nat, v: real, action: Act)
    requires n <= |ms| == |scores|
  {
    exists j :: 0 <= j < n && ms[j] == action && scores[j] == v && forall l :: 0 <= l < j ==> scores[l] < v
  }

  /** Pacman's loop ends on the largest score and the first move reaching
      it. */
  lemma {:induction false} BestMoveIsFirstMax<Act>(ms: seq<Act>, scores: seq<real>, i: nat, best: Option<real>, action: Act)
    requires |scores| == |ms| && i <= |ms| && (best.Some? || i < |ms|)
    requires i == 0 <==> best.None?
    requires i > 0 ==> best.value == MaxReal(scores[..i]) && FirstReaching(ms, scores, i, best.value, action)
    ensures var r := BestMove(ms, scores, i, best, action);
            && r.value == MaxReal(scores)
            && r.action.Some? && FirstReaching(ms, scores, |ms|, r.value, r.action.value)
    decreases |ms| - i
  {
    var r := BestMove(ms, scores, i, best, action);
    if i == |ms| {
      assert scores[..i] == scores;
      assert r == Scored(best.value, Some(action));
    } else if best.None? || best.value < scores[i] {
      assert r == BestMove(ms, scores, i + 1, Some(scores[i]), ms[i]);
      NewBestReaches(ms, scores, i, best);
      BestMoveIsFirstMax(ms, scores, i + 1, Some(scores[i]), ms[i]);
    } else {
      assert r == BestMove(ms, scores, i + 1, best, action);
      KeptBestReaches(ms, scores, i, best.value, action);
      BestMoveIsFirstMax(ms, scores, i + 1, best, action);
    }
  }

  /** A score beating every earlier one is the maximum so far, and its move
      is the first reaching it. */
  lemma NewBestReaches<Act>(ms: seq<Act>, scores: seq<real>, i: nat, best: Option<real>)
    requires |scores| == |ms| && i < |ms|
    requires i == 0 <==> best.None?
    requires i > 0 ==> best.value == MaxReal(scores[..i]) && best.value < scores[i]
    ensures MaxReal(scores[..i + 1]) == scores[i]
    ensures FirstReaching(ms, scores, i + 1, scores[i], ms[i])
  {
    if i == 0 {
      assert scores[..1] == [scores[0]];
    } else {
      MaxRealSnoc(scores, i);
      forall l | 0 <= l < i
        ensures scores[l] < scores[i]
      {
        assert scores[..i][l] == scores[l];
      }
    }
  }

  /** A score not beating the maximum so far leaves it, and the first move
      reaching it, unchanged. */
  lemma KeptBestReaches<Act>(ms: seq<Act>, scores: seq<real>, i: nat, v: real, action: Act)
    requires |scores| == |ms| && 0 < i < |ms|
    requires v == MaxReal(scores[..i]) && !(v < scores[i])
    requires FirstReaching(ms, scores, i, v, action)
    ensures MaxReal(scores[..i + 1]) == v
    ensures FirstReaching(ms, scores, i + 1, v, action)
  {
    MaxRealSnoc(scores, i);
    var j :| 0 <= j < i && ms[j] == action && scores[j] == v && forall l :: 0 <= l < j ==> scores[l] < v;
    assert FirstReaching(ms, scores, i + 1, v, action);
  }

  /** A ghost's loop, started on the weighted sum of the scores before
      move `i`, ends on the sum of all scores times `p`. */
  lemma ExpectationIsScaledSum(scores: seq<real>, i: nat, total: real, p: real)
    requires i <= |scores| && total == Sum(scores[..i]) * p
    ensures Expectation(scores, i, total, p) == Sum(scores) * p
  {
    WeightedIsScaledSum(scores, p);
    WeightedIsScaledSum(scores[..i], p);
  }

  /** A ghost's loop, weighting each score by `1/n`, ends on the mean. */
  lemma LoopIsMean(scores: seq<real>, p: real)
    requires |scores| > 0 && p == 1.0 / (|scores| as real)
    ensures Expectation(scores, 0, 0.0, p) == Sum(scores) / (|scores| as real)
  {
    LoopFromZero(scores, p);
    TimesReciprocal(Sum(scores), |scores| as real);
  }

  /** Started on nothing, a ghost's loop ends on the weighted sum of all
      scores. */
  lemma LoopFromZero(scores: seq<real>, p: real)
    ensures Expectation(scores, 0, 0.0, p) == Sum(scores) * p
  {
    assert scores[..0] == [];
    WeightedIsScaledSum(scores, p);
  }

  lemma TimesReciprocal(x: real, n: real)
    requires n > 0.0
    ensures x * (1.0 / n) == x / n
  {
  }

  lemma Distributes(a: real, b: real, p: real)
    ensures (a + b) * p == a * p + b * p
  {
  }

  /** Dividing by a positive number keeps a bound that the product respects. */
  lemma QuotientAtMost(total: real, hi: real, n: real)
    requires n > 0.0 && total <= n * hi
    ensures total / n <= hi
  {
    var q := total / n;
    assert q * n == total;
    if q > hi {
      MultiplyStrict(q, hi, n);
      assert false;
    }
  }

  lemma QuotientAtLeast(lo: real, total: real, n: real)
    requires n > 0.0 && n * lo <= total
    ensures lo <= total / n
  {
    var q := total / n;
    assert q * n == total;
    if q < lo {
      MultiplyStrict(lo, q, n);
      assert false;
    }
  }

  lemma MultiplyStrict(a: real, b: real, n: real)
    requires a > b && n > 0.0
    ensures a * n > b * n
  {
    assert a * n - b * n == (a - b) * n;
  }

  /** `k` copies of `m` added up, kept apart from multiplication so that
      the bounds below stay linear. */
  function Copies(k: nat, m: real): real
  {
    if k == 0 then 0.0 else Copies(k - 1, m) + m
  }

  lemma {:induction false} CopiesIsProduct(k: nat, m: real)
    ensures Copies(k, m) == (k as real) * m
  {
    if k > 0 {
      CopiesIsProduct(k - 1, m);
      Distributes((k - 1) as real, 1.0, m);
    }
  }

  /** A sum of `n` terms none above `m` is at most `n` copies of `m`. */
  lemma {:induction false} SumAtMost(xs: seq<real>, m: real)
    requires forall i :: 0 <= i < |xs| ==> xs[i] <= m
    ensures Sum(xs) <= Copies(|xs|, m)
    decreases |xs|
  {
    if xs != [] {
      var init := xs[..|xs| - 1];
      assert forall i :: 0 <= i < |init| ==> init[i] == xs[i];
      SumAtMost(init, m);
    }
  }

  /** A sum of `n` terms none below `m` is at least `n` copies of `m`. */
  lemma {:induction false} SumAtLeast(xs: seq<real>, m: real)
    requires forall i :: 0 <= i < |xs| ==> m <= xs[i]
    ensures Copies(|xs|, m) <= Sum(xs)
    decreases |xs|
  {
    if xs != [] {
      var init := xs[..|xs| - 1];
      assert forall i :: 0 <= i < |init| ==> init[i] == xs[i];
      SumAtLeast(init, m);
    }
  }

  lemma DivideAtMost(total: real, hi: real, k: nat)
    requires k > 0 && total <= Copies(k, hi)
    ensures total / (k as real) <= hi
  {
    CopiesIsProduct(k, hi);
    QuotientAtMost(total, hi, k as real);
  }

  lemma DivideAtLeast(lo: real, total: real, k: nat)
    requires k > 0 && Copies(k, lo) <= total
    ensures lo <= total / (k as real)
  {
    CopiesIsProduct(k, lo);
    QuotientAtLeast(lo, total, k as real);
  }

  /** The mean of a non-empty sequence lies between its smallest and its
      largest element. */
  lemma MeanBetweenExtremes(xs: seq<real>)
    requires |xs| > 0
    ensures MinReal(xs) <= Sum(xs) / (|xs| as real) <= MaxReal(xs)
  {
    SumAtMost(xs, MaxReal(xs));
    DivideAtMost(Sum(xs), MaxReal(xs), |xs|);
    SumAtLeast(xs, MinReal(xs));
    DivideAtLeast(MinReal(xs), Sum(xs), |xs|);
  }

  /** Expectimax computes the expectimax value. */
  lemma {:induction false} ExpectimaxIsValue<G, Act(!new)>(g: Game<G, Act>, eval: G -> real, s: G, depth: nat, agent: nat)
    requires agent < g.agents
    ensures Expectimax(g, eval, s, depth, agent).value == ExpValue(g, eval, s, depth, agent)
    decreases depth, g.agents - agent, 1
  {
    var ms := Moves(g, s, agent);
    if !Leaf(g, s, depth) && ms != [] {
      var vs := ExpChildValues(g, eval, s, depth, agent);
      ExpectimaxScansChildValues(g, eval, s, depth, agent);
      ExpInnerValue(g, eval, s, depth, agent);
      if agent == 0 {
        BestMoveIsFirstMax(ms, vs, 0, None, ms[0]);
      } else {
        LoopIsMean(vs, 1.0 / (|vs| as real));
      }
    }
  }

  /** At an inner node expectimax runs its loop over the children's
      expectimax values. */
  lemma {:induction false} ExpectimaxScansChildValues<G, Act(!new)>(g: Game<G, Act>, eval: G -> real, s: G, depth: nat, agent: nat)
    requires agent < g.agents && !Leaf(g, s, depth) && Moves(g, s, agent) != []
    ensures var ms := Moves(g, s, agent);
            var vs := ExpChildValues(g, eval, s, depth, agent);
            Expectimax(g, eval, s, depth, agent) ==
              if agent == 0 then BestMove(ms, vs, 0, None, ms[0])
              else Scored(Expectation(vs, 0, 0.0, 1.0 / (|ms| as real)), Some(ms[0]))
    decreases depth, g.agents - agent, 0
  {
    var ms := Moves(g, s, agent);
    var nd, na := NextDepth(g, depth, agent), NextAgent(g, agent);
    forall j | 0 <= j < |ms|
      ensures Expectimax(g, eval, Child(g, s, agent, ms[j]), nd, na).value == ExpValue(g, eval, Child(g, s, agent, ms[j]), nd, na)
    {
      ExpectimaxIsValue(g, eval, Child(g, s, agent, ms[j]), nd, na);
    }
    var scores := seq(|ms|, j requires 0 <= j < |ms| => Expectimax(g, eval, Child(g, s, agent, ms[j]), nd, na).value);
    assert scores == ExpChildValues(g, eval, s, depth, agent);
  }

  /** On Pacman's turn expectimax returns the largest child value and the
      first move reaching it. */
  lemma ExpectimaxMaxNode<G, Act(!new)>(g: Game<G, Act>, eval: G -> real, s: G, depth: nat)
    requires g.agents > 0 && !Leaf(g, s, depth) && Moves(g, s, 0) != []
    ensures var r := Expectimax(g, eval, s, depth, 0);
            var vs := ExpChildValues(g, eval, s, depth, 0);
            && r.value == MaxReal(vs)
            && exists j :: 0 <= j < |vs| && r.action == Some(Moves(g, s, 0)[j]) && vs[j] == r.value &&
                 forall l :: 0 <= l < j ==> vs[l] < r.value
  {
    ExpectimaxScansChildValues(g, eval, s, depth, 0);
    BestMoveIsFirstMax(Moves(g, s, 0), ExpChildValues(g, eval, s, depth, 0), 0, None, Moves(g, s, 0)[0]);
  }

  /** On a ghost's turn expectimax returns the mean child value, which lies
      between the smallest and the largest child value, and the ghost's
      first move. */
  lemma ExpectimaxChanceNode<G, Act(!new)>(g: Game<G, Act>, eval: G -> real, s: G, depth: nat, agent: nat)
    requires 0 < agent < g.agents && !Leaf(g, s, depth) && Moves(g, s, agent) != []
    ensures var r := Expectimax(g, eval, s, depth, agent);
            var vs := ExpChildValues(g, eval, s, depth, agent);
            && r.value == Sum(vs) / (|vs| as real)
            && MinReal(vs) <= r.value <= MaxReal(vs)
            && r.action == Some(Moves(g, s, agent)[0])
  {
    var vs := ExpChildValues(g, eval, s, depth, agent);
    var mean := Sum(vs) / (|vs| as real);
    assert ExpValue(g, eval, s, depth, agent) == mean;
    ExpectimaxIsValue(g, eval, s, depth, agent);
    ExpectimaxScansChildValues(g, eval, s, depth, agent);
    MeanBetweenExtremes(vs);
  }

  /** pacai's ExpectimaxAgent.getAction: the move expectimax picks for
      Pacman. */
  function ExpectimaxAction<G, Act(==,!new)>(g: Game<G, Act>, eval: G -> real, s: G, depth: nat): (a: Option<Act>)
    requires g.agents > 0
    ensures a.Some? ==> a.value in g.legal(s, 0) && a.value != g.stop
    ensures a.None? <==> Leaf(g, s, depth) || Moves(g, s, 0) == []
  {
    Expectimax(g, eval, s, depth, 0).action
  }
}
