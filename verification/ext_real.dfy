/** Evaluation scores of minimax and alpha-beta search: real numbers
    together with the two infinities the searches start their running
    best value from. */
module ExtReals {

  datatype ExtReal = NegInf | Fin(r: real) | PosInf

  /** The usual order, with `NegInf` below and `PosInf` above every real. */
  predicate Le(x: ExtReal, y: ExtReal)
  {
    x.NegInf? || y.PosInf? || (x.Fin? && y.Fin? && x.r <= y.r)
  }

  predicate Lt(x: ExtReal, y: ExtReal)
  {
    !Le(y, x)
  }

  function Max(x: ExtReal, y: ExtReal): (m: ExtReal)
    ensures Le(x, m) && Le(y, m)
    ensures m == x || m == y
  {
    if Le(x, y) then y else x
  }

  function Min(x: ExtReal, y: ExtReal): (m: ExtReal)
    ensures Le(m, x) && Le(m, y)
    ensures m == x || m == y
  {
    if Le(x, y) then x else y
  }

  /** The largest element, `NegInf` for the empty sequence. */
  function MaxOf(xs: seq<ExtReal>): (m: ExtReal)
    ensures forall i :: 0 <= i < |xs| ==> Le(xs[i], m)
    ensures xs == [] ==> m == NegInf
    ensures xs != [] ==> exists i :: 0 <= i < |xs| && xs[i] == m
  {
    if xs == [] then NegInf
    else
      var m := Max(MaxOf(xs[..|xs| - 1]), xs[|xs| - 1]);
      assert forall i :: 0 <= i < |xs| - 1 ==> xs[..|xs| - 1][i] == xs[i];
      m
  }

  /** The smallest element, `PosInf` for the empty sequence. */
  function MinOf(xs: seq<ExtReal>): (m: ExtReal)
    ensures forall i :: 0 <= i < |xs| ==> Le(m, xs[i])
    ensures xs == [] ==> m == PosInf
    ensures xs != [] ==> exists i :: 0 <= i < |xs| && xs[i] == m
  {
    if xs == [] then PosInf
    else
      var m := Min(MinOf(xs[..|xs| - 1]), xs[|xs| - 1]);
      assert forall i :: 0 <= i < |xs| - 1 ==> xs[..|xs| - 1][i] == xs[i];
      m
  }

  /** Folding one more element into a prefix. */
  lemma MaxOfSnoc(xs: seq<ExtReal>, i: nat)
    requires i < |xs|
    ensures MaxOf(xs[..i + 1]) == Max(MaxOf(xs[..i]), xs[i])
  {
    assert xs[..i + 1][..i] == xs[..i];
  }

  lemma MinOfSnoc(xs: seq<ExtReal>, i: nat)
    requires i < |xs|
    ensures MinOf(xs[..i + 1]) == Min(MinOf(xs[..i]), xs[i])
  {
    assert xs[..i + 1][..i] == xs[..i];
  }

  /** A prefix's maximum never exceeds the whole sequence's. */
  lemma MaxOfPrefix(xs: seq<ExtReal>, i: nat)
    requires i <= |xs|
    ensures Le(MaxOf(xs[..i]), MaxOf(xs))
  {
    if i > 0 {
      var j :| 0 <= j < i && xs[..i][j] == MaxOf(xs[..i]);
      assert xs[j] == MaxOf(xs[..i]);
    }
  }

  lemma MinOfPrefix(xs: seq<ExtReal>, i: nat)
    requires i <= |xs|
    ensures Le(MinOf(xs), MinOf(xs[..i]))
  {
    if i > 0 {
      var j :| 0 <= j < i && xs[..i][j] == MinOf(xs[..i]);
      assert xs[j] == MinOf(xs[..i]);
    }
  }
}
