/** Frontier containers of the graph search: a LIFO stack, a FIFO queue and a
    lowest-key-first priority queue.  Each is modelled as the sequence of its
    pending entries in insertion order; the discipline only decides which
    index the next pop takes. */
module Frontier {

  /** Which pending entry a frontier hands out next. */
  datatype Discipline = Lifo | Fifo | LowestKey

  /** A pending item together with the key it was pushed with.  Only the
      LowestKey discipline looks at keys. */
  datatype Entry<T> = Entry(item: T, key: int)

  /** Every container pushes at the back; only the pop differs. */
  function Push<T>(f: seq<Entry<T>>, item: T, key: int): (r: seq<Entry<T>>)
    ensures |r| == |f| + 1 && r[..|f|] == f && r[|f|] == Entry(item, key)
    ensures multiset(r) == multiset(f) + multiset{Entry(item, key)}
  {
    f + [Entry(item, key)]
  }

  /** The indices a frontier of discipline `d` may pop next.  For the
      priority queue any entry of least key qualifies: the order among
      equal keys is deliberately left open. */
  predicate MayPop<T>(d: Discipline, f: seq<Entry<T>>, i: int)
  {
    && 0 <= i < |f|
    && match d
       case Lifo => i == |f| - 1
       case Fifo => i == 0
       case LowestKey => forall j :: 0 <= j < |f| ==> f[i].key <= f[j].key
  }

  /** The earliest entry of least key. */
  function FirstLowest<T>(f: seq<Entry<T>>): (i: nat)
    requires |f| > 0
    ensures i < |f|
    ensures forall j :: 0 <= j < |f| ==> f[i].key <= f[j].key
    ensures forall j :: 0 <= j < i ==> f[i].key < f[j].key
    decreases |f|
  {
    if |f| == 1 then 0
    else
      var j := FirstLowest(f[..|f| - 1]);
      if f[|f| - 1].key < f[j].key then |f| - 1 else j
  }

  /** The index the model pops: one of the indices `MayPop` allows. */
  function PopIndex<T>(d: Discipline, f: seq<Entry<T>>): (i: nat)
    requires |f| > 0
    ensures MayPop(d, f, i)
  {
    match d
    case Lifo => |f| - 1
    case Fifo => 0
    case LowestKey => FirstLowest(f)
  }

  /** The frontier after the entry at `i` has been popped. */
  function Remove<T>(f: seq<Entry<T>>, i: int): (r: seq<Entry<T>>)
    requires 0 <= i < |f|
    ensures |r| == |f| - 1
    ensures forall j :: 0 <= j < i ==> r[j] == f[j]
    ensures forall j :: i <= j < |r| ==> r[j] == f[j + 1]
    ensures multiset(r) + multiset{f[i]} == multiset(f)
    ensures forall e :: e in r ==> e in f
    ensures forall e :: e in f && e != f[i] ==> e in r
  {
    assert f == f[..i] + [f[i]] + f[i + 1..];
    f[..i] + f[i + 1..]
  }

  /** A stack hands back the entry pushed last, and popping it undoes the push. */
  lemma StackIsLastInFirstOut<T>(f: seq<Entry<T>>, item: T, key: int)
    ensures var g := Push(f, item, key);
            var i := PopIndex(Lifo, g);
            g[i] == Entry(item, key) && Remove(g, i) == f
  {
    var g := Push(f, item, key);
    assert Remove(g, |f|) == f;
  }

  /** A queue hands back its oldest entry, and pushing commutes with popping
      from a non-empty queue. */
  lemma QueueIsFirstInFirstOut<T>(f: seq<Entry<T>>, item: T, key: int)
    requires |f| > 0
    ensures var g := Push(f, item, key);
            var i := PopIndex(Fifo, g);
            g[i] == f[0] && Remove(g, i) == Push(Remove(f, 0), item, key)
  {
    var g := Push(f, item, key);
    assert Remove(g, 0) == Push(Remove(f, 0), item, key);
  }
}
