/** Frequency counting as `dict(Counter(values))` does it: an insertion-ordered
    table from each distinct value to the number of times it occurs. */
module Counting {
  import opened Sheet

  /** A frequency table: (value, count) entries in first-seen order. */
  type Counts = seq<(Cell, nat)>

  function Keys(t: Counts): (ks: seq<Cell>)
    ensures |ks| == |t|
    ensures forall i :: 0 <= i < |t| ==> ks[i] == t[i].0
  {
    if t == [] then [] else [t[0].0] + Keys(t[1..])
  }

  /** The count recorded for `v`, zero when `v` has no entry. */
  function CountOf(t: Counts, v: Cell): nat
  {
    if t == [] then 0 else if t[0].0 == v then t[0].1 else CountOf(t[1..], v)
  }

  /** The sum of all counts in the table. */
  function Total(t: Counts): nat
  {
    if t == [] then 0 else t[0].1 + Total(t[1..])
  }

  predicate DistinctKeys(t: Counts)
  {
    forall i, j :: 0 <= i < j < |t| ==> t[i].0 != t[j].0
  }

  predicate PositiveCounts(t: Counts)
  {
    forall i :: 0 <= i < |t| ==> t[i].1 > 0
  }

  /** Record one more occurrence of `v`: increment its entry, or append a new
      entry with count 1 when `v` is not yet a key. */
  function Bump(t: Counts, v: Cell): (r: Counts)
    requires DistinctKeys(t)
    ensures DistinctKeys(r)
    ensures forall w :: w in Keys(r) <==> w in Keys(t) || w == v
    ensures forall w :: CountOf(r, w) == CountOf(t, w) + (if w == v then 1 else 0)
  {
    if t == [] then [(v, 1)]
    else if t[0].0 == v then [(v, t[0].1 + 1)] + t[1..]
    else
      assert Keys(t) == [t[0].0] + Keys(t[1..]);
      var rest := Bump(t[1..], v);
      assert Keys([t[0]] + rest) == [t[0].0] + Keys(rest);
      DistinctCons(t[0], rest);
      [t[0]] + rest
  }

  /** Recording one occurrence adds one to the total and keeps every count positive. */
  lemma {:induction false} BumpTotal(t: Counts, v: Cell)
    requires DistinctKeys(t)
    ensures Total(Bump(t, v)) == Total(t) + 1
    ensures PositiveCounts(t) ==> PositiveCounts(Bump(t, v))
  {
    if t != [] && t[0].0 != v {
      BumpTotal(t[1..], v);
    }
  }

  /** Putting an entry with a new key in front keeps the keys distinct. */
  lemma DistinctCons(x: (Cell, nat), t: Counts)
    requires DistinctKeys(t) && x.0 !in Keys(t)
    ensures DistinctKeys([x] + t)
  {
    forall i, j | 0 <= i < j < |[x] + t|
      ensures ([x] + t)[i].0 != ([x] + t)[j].0
    {
      if i == 0 {
        assert ([x] + t)[j].0 == Keys(t)[j - 1];
      }
    }
  }

  /** `Counter(values)`: the values scanned left to right.  The table has one
      entry per distinct value, each with its multiplicity, and the counts
      add up to the number of values. */
  function Tally(values: seq<Cell>): (t: Counts)
    ensures DistinctKeys(t) && PositiveCounts(t)
    ensures forall v :: v in Keys(t) <==> v in values
    ensures forall v :: CountOf(t, v) == multiset(values)[v]
    ensures Total(t) == |values|
  {
    if values == [] then []
    else
      var init := values[..|values| - 1];
      var last := values[|values| - 1];
      assert values == init + [last];
      BumpTotal(Tally(init), last);
      Bump(Tally(init), last)
  }
}
