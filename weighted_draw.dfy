/**
 * The weighted draw without replacement inside one priority band.
 *
 * Every record counts with `weight + 1` (the 1-based shift of the weights):
 * `ShiftedWeight` is the band's `total_weight`, a selector in
 * [1, total_weight] picks the record whose slice of the running sum holds
 * it, the record is deleted and `total_weight` shrinks by its share.
 */
module WeightedDraw {
  import opened SrvTypes

  /** Sum of `weight + 1` over the records of `s`. */
  function ShiftedWeight(s: seq<Srv>): (w: nat)
    ensures w >= |s|
  {
    if s == [] then 0 else s[0].weight + 1 + ShiftedWeight(s[1..])
  }

  lemma {:induction false} ShiftedWeightAppend(a: seq<Srv>, b: seq<Srv>)
    ensures ShiftedWeight(a + b) == ShiftedWeight(a) + ShiftedWeight(b)
    decreases |a|
  {
    if a == [] {
      assert a + b == b;
    } else {
      assert (a + b)[1..] == a[1..] + b;
      ShiftedWeightAppend(a[1..], b);
    }
  }

  /** The total splits at any point into the weight before and the weight after. */
  lemma ShiftedWeightSplit(s: seq<Srv>, j: nat)
    requires j <= |s|
    ensures ShiftedWeight(s) == ShiftedWeight(s[..j]) + ShiftedWeight(s[j..])
  {
    assert s == s[..j] + s[j..];
    ShiftedWeightAppend(s[..j], s[j..]);
  }

  /** The running sum grows by exactly `weight + 1` at each record. */
  lemma PrefixStep(s: seq<Srv>, i: nat)
    requires i < |s|
    ensures ShiftedWeight(s[..i + 1]) == ShiftedWeight(s[..i]) + s[i].weight + 1
  {
    assert s[..i + 1] == s[..i] + [s[i]];
    ShiftedWeightAppend(s[..i], [s[i]]);
    assert [s[i]][1..] == [];
  }

  /** The running sum rises by at least one per record and ends at the total. */
  lemma PrefixMonotone(s: seq<Srv>, i: nat, j: nat)
    requires i <= j <= |s|
    ensures ShiftedWeight(s[..i]) + (j - i) <= ShiftedWeight(s[..j]) <= ShiftedWeight(s)
  {
    assert s[..j] == s[..i] + s[i..j];
    ShiftedWeightAppend(s[..i], s[i..j]);
    assert s == s[..j] + s[j..];
    ShiftedWeightAppend(s[..j], s[j..]);
  }

  lemma PrefixMonotoneAll(s: seq<Srv>)
    ensures forall i, j | 0 <= i <= j <= |s| ::
      ShiftedWeight(s[..i]) + (j - i) <= ShiftedWeight(s[..j]) <= ShiftedWeight(s)
  {
    forall i, j | 0 <= i <= j <= |s|
      ensures ShiftedWeight(s[..i]) + (j - i) <= ShiftedWeight(s[..j]) <= ShiftedWeight(s)
    {
      PrefixMonotone(s, i, j);
    }
  }

  /**
   * The index `find_index` stops at: walking the records, the selector is
   * reduced by each `weight + 1` until it is no longer positive.
   */
  function Pick(s: seq<Srv>, selector: int): (i: nat)
    requires 1 <= selector <= ShiftedWeight(s)
    ensures i < |s|
    decreases |s|
  {
    if selector <= s[0].weight + 1 then 0
    else Pick(s[1..], selector - (s[0].weight + 1)) + 1
  }

  /** The picked record is the one whose slice of the running sum holds the selector. */
  lemma {:induction false} PickInSlice(s: seq<Srv>, selector: int)
    requires 1 <= selector <= ShiftedWeight(s)
    ensures ShiftedWeight(s[..Pick(s, selector)]) < selector <= ShiftedWeight(s[..Pick(s, selector) + 1])
    decreases |s|
  {
    assert s[..1] == [s[0]] && [s[0]][1..] == [];
    if selector > s[0].weight + 1 {
      var rest := selector - (s[0].weight + 1);
      var j := Pick(s[1..], rest);
      PickInSlice(s[1..], rest);
      assert s[..j + 1][1..] == s[1..][..j];
      assert s[..j + 2][1..] == s[1..][..j + 1];
    }
  }

  /** The selected index is the only one whose slice of the running sum holds the selector. */
  lemma PickUnique(s: seq<Srv>, selector: int, j: nat)
    requires j < |s|
    requires ShiftedWeight(s[..j]) < selector <= ShiftedWeight(s[..j + 1])
    ensures 1 <= selector <= ShiftedWeight(s)
    ensures Pick(s, selector) == j
  {
    PrefixMonotoneAll(s);
    PickInSlice(s, selector);
  }

  /** The integers x with lo < x <= hi. */
  function Interval(lo: int, hi: int): (r: set<int>)
    ensures forall x :: x in r <==> lo < x <= hi
    ensures |r| == if lo <= hi then hi - lo else 0
    decreases hi - lo
  {
    if hi <= lo then {} else Interval(lo, hi - 1) + {hi}
  }

  /** The selector values in [1, total_weight] that pick record `i`. */
  function SelectorsOf(s: seq<Srv>, i: nat): set<int> {
    set selector: int | 1 <= selector <= ShiftedWeight(s) && Pick(s, selector) == i
  }

  /**
   * Of the `total_weight` selector values, exactly `weight + 1` pick record
   * `i`; a record of weight 0 is picked by one of them.
   */
  lemma SelectorCount(s: seq<Srv>, i: nat)
    requires i < |s|
    ensures |SelectorsOf(s, i)| == s[i].weight + 1
  {
    var lo, hi := ShiftedWeight(s[..i]), ShiftedWeight(s[..i + 1]);
    PrefixStep(s, i);
    PrefixMonotone(s, i + 1, i + 1);
    var picking := SelectorsOf(s, i);
    var range := Interval(lo, hi);
    forall x: int | x in range ensures x in picking {
      PickUnique(s, x, i);
    }
    forall x: int | x in picking ensures x in range {
      PickInSlice(s, x);
    }
    assert picking == range;
  }
  /** Ruby's `delete_at`: `s` without its element at `i`. */
  function RemoveAt(s: seq<Srv>, i: nat): (r: seq<Srv>)
    requires i < |s|
    ensures |r| == |s| - 1
  {
    s[..i] + s[i + 1..]
  }

  /** Deleting a record takes exactly its `weight + 1` off the total: the `total_weight` update. */
  lemma RemoveAtWeight(s: seq<Srv>, i: nat)
    requires i < |s|
    ensures ShiftedWeight(RemoveAt(s, i)) + s[i].weight + 1 == ShiftedWeight(s)
  {
    ShiftedWeightSplit(s, i + 1);
    PrefixStep(s, i);
    ShiftedWeightAppend(s[..i], s[i + 1..]);
  }

  /** Deleting a record takes exactly that record out of the multiset. */
  lemma RemoveAtMultiset(s: seq<Srv>, i: nat)
    requires i < |s|
    ensures multiset(RemoveAt(s, i)) + multiset{s[i]} == multiset(s)
  {
    assert s == s[..i] + [s[i]] + s[i + 1..];
  }

  /**
   * The `find_index` call: its block subtracts `weight + 1` from the
   * selector at each record and stops at the first record that brings it
   * to zero or below. It finds nothing only on an empty list or a selector
   * above the total.
   */
  method FindSelectedIndex(available: seq<Srv>, selector: int) returns (found: Option<nat>)
    ensures found.Some? <==> available != [] && selector <= ShiftedWeight(available)
    ensures found.Some? ==> found.value < |available|
    ensures 1 <= selector <= ShiftedWeight(available) ==> found == Some(Pick(available, selector))
    ensures selector < 1 && available != [] ==> found == Some(0)
  {
    PrefixMonotoneAll(available);
    var remaining := selector;
    var j := 0;
    while j < |available|
      invariant 0 <= j <= |available|
      invariant remaining == selector - ShiftedWeight(available[..j])
      invariant j > 0 ==> remaining > 0
    {
      PrefixStep(available, j);
      remaining := remaining - (available[j].weight + 1);
      if remaining <= 0 {
        if 1 <= selector {
          PickUnique(available, selector, j);
        }
        return Some(j);
      }
      j := j + 1;
    }
    assert available[..j] == available;
    return None;
  }

  /** `Integer(rand * total_weight) + 1`, with `rand` held exactly. */
  function Selector(r: UnitRand, total: nat): (selector: int)
    ensures total > 0 ==> 1 <= selector <= total
  {
    SelectorBound(r, total);
    r.num * total / r.den + 1
  }

  lemma {:induction false} MulMonotone(x: nat, y: nat, d: nat)
    requires x <= y
    ensures x * d <= y * d
    decreases d
  {
    if d > 0 {
      MulMonotone(x, y, d - 1);
      assert x * d == x * (d - 1) + x && y * d == y * (d - 1) + y;
    }
  }

  lemma SelectorBound(r: UnitRand, total: nat)
    ensures 0 <= r.num * total / r.den
    ensures total > 0 ==> r.num * total / r.den < total
  {
    var a, d := r.num * total, r.den;
    var q := a / d;
    assert q * d + a % d == a;
    MulMonotone(r.num, d, total);
    assert a <= d * total;
    if total > 0 && total <= q {
      MulMonotone(total, q, d);
      assert total * d <= q * d <= a;
      MulMonotone(r.num + 1, d, total);
    }
  }

  lemma DivExact(q: nat, d: nat)
    requires d > 0
    ensures q * d / d == q
  {
    var a := q * d;
    var p := a / d;
    assert p * d + a % d == a && 0 <= a % d < d;
    if p > q {
      MulMonotone(q + 1, p, d);
    } else if p < q {
      MulMonotone(p + 1, q, d);
    }
  }

  /** Every selector value in [1, total_weight] comes from some value of `rand`. */
  lemma SelectorOnto(total: nat, selector: int)
    requires 1 <= selector <= total
    ensures Selector(Ratio(selector - 1, total), total) == selector
  {
    DivExact(selector - 1, total);
  }

  /**
   * The records of one band in the order they are yielded, drawing with
   * `rand(k)`, `rand(k + 1)`, ... .
   */
  function Draw(band: seq<Srv>, rand: nat -> UnitRand, k: nat): seq<Srv>
    decreases |band|
  {
    if band == [] then []
    else
      var i := Pick(band, Selector(rand(k), ShiftedWeight(band)));
      [band[i]] + Draw(RemoveAt(band, i), rand, k + 1)
  }

  /** A band's draw yields each of its records exactly once. */
  lemma {:induction false} DrawPermutation(band: seq<Srv>, rand: nat -> UnitRand, k: nat)
    ensures |Draw(band, rand, k)| == |band|
    ensures multiset(Draw(band, rand, k)) == multiset(band)
    decreases |band|
  {
    if band != [] {
      var i := Pick(band, Selector(rand(k), ShiftedWeight(band)));
      DrawPermutation(RemoveAt(band, i), rand, k + 1);
      RemoveAtMultiset(band, i);
    }
  }

  /** A draw starting at `k` looks at no value of `rand` before `k`. */
  lemma {:induction false} DrawFrom(band: seq<Srv>, rand1: nat -> UnitRand, rand2: nat -> UnitRand, k: nat)
    requires forall n: nat | n >= k :: rand1(n) == rand2(n)
    ensures Draw(band, rand1, k) == Draw(band, rand2, k)
    decreases |band|
  {
    if band != [] {
      var i := Pick(band, Selector(rand1(k), ShiftedWeight(band)));
      DrawFrom(RemoveAt(band, i), rand1, rand2, k + 1);
    }
  }

  /** The draw of `band` from `rand(k)` on yields `x` at position `j`. */
  predicate YieldsAt(band: seq<Srv>, rand: nat -> UnitRand, k: nat, j: nat, x: Srv) {
    var drawn := Draw(band, rand, k);
    j < |drawn| && drawn[j] == x
  }

  /** A value of `rand` under which the next draw from `band` picks record `pick`. */
  function ChoiceFor(band: seq<Srv>, pick: nat): UnitRand
    requires pick < |band|
  {
    PrefixStep(band, pick);
    PrefixMonotone(band, pick + 1, pick + 1);
    Ratio(ShiftedWeight(band[..pick]), ShiftedWeight(band))
  }

  lemma FirstDrawPicks(band: seq<Srv>, rand: nat -> UnitRand, k: nat, pick: nat)
    requires pick < |band| && rand(k) == ChoiceFor(band, pick)
    ensures Draw(band, rand, k) == [band[pick]] + Draw(RemoveAt(band, pick), rand, k + 1)
  {
    var total, lo := ShiftedWeight(band), ShiftedWeight(band[..pick]);
    PrefixStep(band, pick);
    PrefixMonotone(band, pick + 1, pick + 1);
    assert rand(k) == Ratio(lo, total);
    SelectorOnto(total, lo + 1);
    PickUnique(band, lo + 1, pick);
    DrawStep(band, rand, k, pick);
  }

  lemma RemoveAtIndex(s: seq<Srv>, i: nat, j: nat)
    requires i < |s| && j < |s| - 1
    ensures RemoveAt(s, i)[j] == if j < i then s[j] else s[j + 1]
  {
  }

  /** Any record can be the first one drawn. */
  lemma ReachFirst(band: seq<Srv>, i: nat, k: nat)
    requires i < |band|
    ensures exists rand: nat -> UnitRand :: YieldsAt(band, rand, k, 0, band[i])
  {
    var choice := ChoiceFor(band, i);
    var rand: nat -> UnitRand := n => choice;
    FirstDrawPicks(band, rand, k, i);
    assert YieldsAt(band, rand, k, 0, band[i]);
  }

  /** Whatever the remaining records can yield at `j`, the band can yield at `j + 1`. */
  lemma ReachLater(band: seq<Srv>, pick: nat, later: nat -> UnitRand, k: nat, j: nat, x: Srv)
    requires pick < |band| && 0 < j && YieldsAt(RemoveAt(band, pick), later, k + 1, j - 1, x)
    ensures exists rand: nat -> UnitRand :: YieldsAt(band, rand, k, j, x)
  {
    var choice := ChoiceFor(band, pick);
    var rand: nat -> UnitRand := n => if n == k then choice else later(n);
    DrawFrom(RemoveAt(band, pick), rand, later, k + 1);
    FirstDrawPicks(band, rand, k, pick);
    assert YieldsAt(band, rand, k, j, x);
  }

  /**
   * No record is ever out of reach: for every record and every position in
   * the band, some values of `rand` yield that record at that position.
   */
  lemma {:induction false} EveryRecordReachable(band: seq<Srv>, i: nat, j: nat, k: nat)
    requires i < |band| && j < |band|
    ensures exists rand: nat -> UnitRand :: YieldsAt(band, rand, k, j, band[i])
    decreases j
  {
    if j == 0 {
      ReachFirst(band, i, k);
    } else {
      var pick := if i == 0 then 1 else 0;
      var i' := if i < pick then i else i - 1;
      RemoveAtIndex(band, pick, i');
      EveryRecordReachable(RemoveAt(band, pick), i', j - 1, k + 1);
      var later: nat -> UnitRand :| YieldsAt(RemoveAt(band, pick), later, k + 1, j - 1, band[i]);
      ReachLater(band, pick, later, k, j, band[i]);
    }
  }

  /** The `inject` that sets `total_weight`: the sum of `weight + 1` over the band. */
  method InitialTotalWeight(band: seq<Srv>) returns (total: int)
    ensures total == ShiftedWeight(band)
  {
    total := 0;
    for j := 0 to |band|
      invariant total == ShiftedWeight(band[..j])
    {
      PrefixStep(band, j);
      total := total + band[j].weight + 1;
    }
    assert band[..|band|] == band;
  }

  /** One draw: the record at the picked index comes first, the rest is drawn from what remains. */
  lemma DrawStep(available: seq<Srv>, rand: nat -> UnitRand, n: nat, idx: nat)
    requires available != []
    requires idx == Pick(available, Selector(rand(n), ShiftedWeight(available)))
    ensures Draw(available, rand, n) == [available[idx]] + Draw(RemoveAt(available, idx), rand, n + 1)
  {
  }

  /**
   * The body of the `until available.empty?` loop: draw the selector from
   * `rand(n)`, find and delete the selected record, and take its share off
   * `total_weight`.
   */
  method DrawOnce(available: seq<Srv>, totalWeight: int, rand: nat -> UnitRand, n: nat)
    returns (selected: Srv, remaining: seq<Srv>, newTotal: int)
    requires available != [] && totalWeight == ShiftedWeight(available)
    ensures [selected] + Draw(remaining, rand, n + 1) == Draw(available, rand, n)
    ensures |remaining| == |available| - 1
    ensures newTotal == ShiftedWeight(remaining)
  {
    var r := rand(n);
    var selector := r.num * totalWeight / r.den + 1;
    assert selector == Selector(r, totalWeight);
    var found := FindSelectedIndex(available, selector);
    var idx := found.value;
    selected := available[idx];
    DrawStep(available, rand, n, idx);
    RemoveAtWeight(available, idx);
    remaining := RemoveAt(available, idx);
    newTotal := totalWeight - (selected.weight + 1);
  }

  /**
   * The draw of one band, with `total_weight` set by `inject` and kept equal
   * to the shifted weight of the records still available. The loop runs
   * once per record, using one value of `rand` each time: the next band
   * starts at value `next`.
   */
  method DrawBand(band: seq<Srv>, rand: nat -> UnitRand, k: nat) returns (drawn: seq<Srv>, next: nat)
    ensures drawn == Draw(band, rand, k)
    ensures next == k + |band|
  {
    var totalWeight := InitialTotalWeight(band);
    var available := band;
    var n: nat := k;
    drawn := [];
    while available != []
      invariant totalWeight == ShiftedWeight(available)
      invariant drawn + Draw(available, rand, n) == Draw(band, rand, k)
      invariant n - k == |band| - |available|
      decreases |available|
    {
      var selected;
      ghost var before, rest := drawn, Draw(available, rand, n);
      selected, available, totalWeight := DrawOnce(available, totalWeight, rand, n);
      drawn := drawn + [selected];
      n := n + 1;
      ShiftOne(before, selected, Draw(available, rand, n), rest, Draw(band, rand, k));
    }
    next := n;
  }

  /**
   * Moving the head of the undrawn part to the end of the drawn part keeps
   * their concatenation. A lemma of its own, rather than an assertion in
   * `DrawBand`, so that the loop body's proof stays cheap for the solver.
   */
  lemma ShiftOne(drawn: seq<Srv>, x: Srv, later: seq<Srv>, rest: seq<Srv>, whole: seq<Srv>)
    requires [x] + later == rest && drawn + rest == whole
    ensures (drawn + [x]) + later == whole
  {
  }
}
