/**
 * Priority grouping: the fetched records are sorted by priority in place,
 * cut into runs of equal priority, and each run is drawn in turn, lowest
 * priority value first.
 */
module PriorityBands {
  import opened SrvTypes

  /** Priorities never decrease along `s`. */
  predicate SortedByPriority(s: seq<Srv>) {
    forall p, q | 0 <= p < q < |s| :: s[p].priority <= s[q].priority
  }

  /**
   * `sort_by!(&:priority)`: reorders the fetched records by priority, in
   * place, keeping exactly the records fetched.
   */
  method SortByPriority(a: array<Srv>)
    modifies a
    ensures SortedByPriority(a[..])
    ensures multiset(a[..]) == old(multiset(a[..]))
  {
    for i := 0 to a.Length
      invariant forall p, q | 0 <= p < q < i :: a[p].priority <= a[q].priority
      invariant multiset(a[..]) == old(multiset(a[..]))
    {
      InsertAt(a, i);
    }
  }

  /**
   * With `a[..i]` sorted, moves `a[i]` down past every record of a larger
   * priority value, so that `a[..i + 1]` is sorted.
   */
  method InsertAt(a: array<Srv>, i: nat)
    requires i < a.Length
    requires forall p, q | 0 <= p < q < i :: a[p].priority <= a[q].priority
    modifies a
    ensures forall p, q | 0 <= p < q <= i :: a[p].priority <= a[q].priority
    ensures forall m | i < m < a.Length :: a[m] == old(a[m])
    ensures multiset(a[..]) == old(multiset(a[..]))
  {
    var j := i;
    while j > 0 && a[j - 1].priority > a[j].priority
      invariant 0 <= j <= i
      invariant forall m | i < m < a.Length :: a[m] == old(a[m])
      invariant forall p, q | 0 <= p < q <= i && p != j && q != j :: a[p].priority <= a[q].priority
      invariant forall q | j < q <= i :: a[j].priority < a[q].priority
      invariant multiset(a[..]) == old(multiset(a[..]))
    {
      SwapDown(a, j);
      j := j - 1;
    }
  }

  /** Exchanges `a[j - 1]` and `a[j]`, leaving every other record in place. */
  method SwapDown(a: array<Srv>, j: nat)
    requires 0 < j < a.Length
    modifies a
    ensures a[j - 1] == old(a[j]) && a[j] == old(a[j - 1])
    ensures forall m | 0 <= m < a.Length && m != j - 1 && m != j :: a[m] == old(a[m])
    ensures multiset(a[..]) == old(multiset(a[..]))
  {
    a[j - 1], a[j] := a[j], a[j - 1];
  }

  /** A band: non-empty, and every record in it has the priority of its first. */
  predicate IsBand(band: seq<Srv>) {
    band != [] && forall x | x in band :: x.priority == band[0].priority
  }

  /** Band priorities strictly increase from one band to any later one. */
  predicate Ascending(bands: seq<seq<Srv>>) {
    forall j, l | 0 <= j < l < |bands| && bands[j] != [] && bands[l] != [] ::
      bands[j][0].priority < bands[l][0].priority
  }

  /** Neighbouring runs: both non-empty, of different priorities. */
  predicate Differ(a: seq<Srv>, b: seq<Srv>) {
    a != [] && b != [] && a[0].priority != b[0].priority
  }

  function Flatten(bands: seq<seq<Srv>>): seq<Srv> {
    if bands == [] then [] else bands[0] + Flatten(bands[1..])
  }

  /**
   * `chunk(&:priority)`: the maximal runs of records of equal priority, in
   * order. On sorted records the runs come out in strictly ascending
   * priority, so the `sort` that follows leaves them as they are.
   */
  function Chunk(s: seq<Srv>): (bands: seq<seq<Srv>>)
    ensures Flatten(bands) == s
    ensures AllBands(bands)
    ensures forall j | 0 < j < |bands| :: Differ(bands[j - 1], bands[j])
    ensures s != [] ==> bands != [] && bands[0] != [] && bands[0][0] == s[0]
  {
    if s == [] then []
    else
      var rest := Chunk(s[1..]);
      if rest != [] && rest[0][0].priority == s[0].priority then
        [[s[0]] + rest[0]] + rest[1..]
      else
        [[s[0]]] + rest
  }

  /**
   * On sorted records the runs come out in strictly ascending priority, so
   * the `sort` applied to the runs leaves them in place.
   */
  lemma {:induction false} ChunkAscending(s: seq<Srv>)
    requires SortedByPriority(s)
    ensures Ascending(Chunk(s))
    decreases |s|
  {
    if s != [] {
      var rest: seq<seq<Srv>> := Chunk(s[1..]);
      ChunkAscending(s[1..]);
      var bands: seq<seq<Srv>> := Chunk(s);
      var merged := rest != [] && rest[0][0].priority == s[0].priority;
      forall j, l | 0 <= j < l < |bands| && bands[j] != [] && bands[l] != []
        ensures bands[j][0].priority < bands[l][0].priority
      {
        if merged {
          assert bands == [[s[0]] + rest[0]] + rest[1..];
          assert bands[l] == rest[l];
          if j > 0 {
            assert bands[j] == rest[j];
          }
        } else {
          assert bands == [[s[0]]] + rest;
          assert bands[l] == rest[l - 1];
          assert s[0].priority <= s[1].priority;
          if j > 0 {
            assert bands[j] == rest[j - 1];
          }
        }
      }
    }
  }

  /** How one band is drawn, given the number of `rand` values drawn before it. */
  type BandDraw = (seq<Srv>, nat) -> seq<Srv>

  /** A band drawing that yields every record of its band exactly once. */
  ghost predicate Permutes(draw: BandDraw) {
    forall band: seq<Srv>, n: nat :: multiset(draw(band, n)) == multiset(band)
  }

  /**
   * The records as yielded: each band drawn in turn, the `rand` count
   * running on across bands by one per record.
   */
  function DrawBands(bands: seq<seq<Srv>>, draw: BandDraw, k: nat): seq<Srv> {
    if bands == [] then []
    else draw(bands[0], k) + DrawBands(bands[1..], draw, k + |bands[0]|)
  }

  lemma {:induction false} FlattenAppend(bands: seq<seq<Srv>>, b: seq<Srv>)
    ensures Flatten(bands + [b]) == Flatten(bands) + b
    decreases |bands|
  {
    if bands == [] {
      assert [b][1..] == [];
    } else {
      assert (bands + [b])[1..] == bands[1..] + [b];
      FlattenAppend(bands[1..], b);
    }
  }

  /** One more band appends its draw, which starts after every record of the earlier bands. */
  lemma {:induction false} DrawBandsAppend(bands: seq<seq<Srv>>, b: seq<Srv>, draw: BandDraw, k: nat)
    ensures DrawBands(bands + [b], draw, k) == DrawBands(bands, draw, k) + draw(b, k + |Flatten(bands)|)
    decreases |bands|
  {
    if bands == [] {
      assert [b][1..] == [];
    } else {
      assert (bands + [b])[1..] == bands[1..] + [b];
      DrawBandsAppend(bands[1..], b, draw, k + |bands[0]|);
    }
  }

  /** One step of the loop over the bands: band `b` drawn after the bands before it. */
  lemma DrawBandsStep(bands: seq<seq<Srv>>, b: nat, draw: BandDraw, out: seq<Srv>, drawn: seq<Srv>)
    requires b < |bands|
    requires out == DrawBands(bands[..b], draw, 0) && |out| == |Flatten(bands[..b])|
    requires drawn == draw(bands[b], |out|) && |drawn| == |bands[b]|
    ensures out + drawn == DrawBands(bands[..b + 1], draw, 0)
    ensures |out + drawn| == |Flatten(bands[..b + 1])|
  {
    assert bands[..b + 1] == bands[..b] + [bands[b]];
    DrawBandsAppend(bands[..b], bands[b], draw, 0);
    FlattenAppend(bands[..b], bands[b]);
  }

  /** Drawing band after band yields every record of every band exactly once. */
  lemma {:induction false} DrawBandsPermutation(bands: seq<seq<Srv>>, draw: BandDraw, k: nat)
    requires Permutes(draw)
    ensures multiset(DrawBands(bands, draw, k)) == multiset(Flatten(bands))
    decreases |bands|
  {
    if bands != [] {
      var first := draw(bands[0], k);
      var later := DrawBands(bands[1..], draw, k + |bands[0]|);
      var rest := Flatten(bands[1..]);
      assert DrawBands(bands, draw, k) == first + later;
      assert Flatten(bands) == bands[0] + rest;
      assert multiset(first) == multiset(bands[0]);
      DrawBandsPermutation(bands[1..], draw, k + |bands[0]|);
      assert multiset(first + later) == multiset(first) + multiset(later);
      assert multiset(bands[0] + rest) == multiset(bands[0]) + multiset(rest);
    }
  }

  /** Every band in `bands` lies strictly above priority `p`. */
  predicate Above(bands: seq<seq<Srv>>, p: nat) {
    forall j | 0 <= j < |bands| :: IsBand(bands[j]) && p < bands[j][0].priority
  }

  predicate AllBands(bands: seq<seq<Srv>>) {
    forall j | 0 <= j < |bands| :: IsBand(bands[j])
  }

  lemma BandsTail(bands: seq<seq<Srv>>)
    requires bands != [] && AllBands(bands) && Ascending(bands)
    ensures AllBands(bands[1..]) && Ascending(bands[1..])
    ensures Above(bands[1..], bands[0][0].priority)
  {
    var tail := bands[1..];
    forall j | 0 <= j < |tail| ensures IsBand(tail[j]) && bands[0][0].priority < tail[j][0].priority {
      assert tail[j] == bands[j + 1];
    }
    forall j, l | 0 <= j < l < |tail| && tail[j] != [] && tail[l] != []
      ensures tail[j][0].priority < tail[l][0].priority
    {
      assert tail[j] == bands[j + 1] && tail[l] == bands[l + 1];
    }
  }

  lemma {:induction false} FlattenAbove(bands: seq<seq<Srv>>, p: nat, x: Srv)
    requires Above(bands, p)
    requires x in Flatten(bands)
    ensures p < x.priority
    decreases |bands|
  {
    if x !in bands[0] {
      assert Above(bands[1..], p) by {
        forall j | 0 <= j < |bands| - 1 ensures IsBand(bands[1..][j]) && p < bands[1..][j][0].priority {
          assert bands[1..][j] == bands[j + 1];
        }
      }
      FlattenAbove(bands[1..], p, x);
    }
  }

  /** A permutation of one band: sorted, since all its records share the band's priority. */
  lemma DrawnBand(band: seq<Srv>, drawn: seq<Srv>)
    requires IsBand(band) && multiset(drawn) == multiset(band)
    ensures forall x | x in drawn :: x.priority == band[0].priority
    ensures SortedByPriority(drawn)
  {
    forall x | x in drawn ensures x.priority == band[0].priority {
      assert x in multiset(drawn);
    }
  }

  /** A permutation of bands above `p` holds only records above `p`. */
  lemma DrawnAbove(bands: seq<seq<Srv>>, drawn: seq<Srv>, p: nat)
    requires Above(bands, p) && multiset(drawn) == multiset(Flatten(bands))
    ensures forall y | y in drawn :: p < y.priority
  {
    forall y | y in drawn ensures p < y.priority {
      assert y in multiset(drawn);
      FlattenAbove(bands, p, y);
    }
  }

  /**
   * Band after band in ascending priority, the yielded priorities never
   * decrease: a band is used up before any record of a higher priority
   * value is yielded.
   */
  lemma {:induction false} DrawBandsSorted(bands: seq<seq<Srv>>, draw: BandDraw, k: nat)
    requires Permutes(draw)
    requires AllBands(bands) && Ascending(bands)
    ensures SortedByPriority(DrawBands(bands, draw, k))
    decreases |bands|
  {
    if bands != [] {
      var tail := bands[1..];
      var first := draw(bands[0], k);
      var later := DrawBands(tail, draw, k + |bands[0]|);
      assert DrawBands(bands, draw, k) == first + later;
      assert IsBand(bands[0]) && multiset(first) == multiset(bands[0]);
      DrawnBand(bands[0], first);
      BandsTail(bands);
      DrawBandsSorted(tail, draw, k + |bands[0]|);
      DrawBandsPermutation(tail, draw, k + |bands[0]|);
      DrawnAbove(tail, later, bands[0][0].priority);
      SortedConcat(first, later);
    }
  }

  lemma SortedConcat(first: seq<Srv>, later: seq<Srv>)
    requires SortedByPriority(first) && SortedByPriority(later)
    requires forall x, y | x in first && y in later :: x.priority <= y.priority
    ensures SortedByPriority(first + later)
  {
    var out := first + later;
    forall a, b | 0 <= a < b < |out| ensures out[a].priority <= out[b].priority {
      if b < |first| {
        assert out[a] == first[a] && out[b] == first[b];
      } else if a < |first| {
        assert out[a] in first && out[b] in later;
      } else {
        assert out[a] == later[a - |first|] && out[b] == later[b - |first|];
      }
    }
  }

  /**
   * The selection order over sorted records: every record yielded exactly
   * once, priorities non-decreasing, whatever the draw within a band.
   */
  lemma SelectionOrder(sorted: seq<Srv>, draw: BandDraw)
    requires SortedByPriority(sorted)
    requires Permutes(draw)
    ensures multiset(DrawBands(Chunk(sorted), draw, 0)) == multiset(sorted)
    ensures SortedByPriority(DrawBands(Chunk(sorted), draw, 0))
  {
    ChunkAscending(sorted);
    DrawBandsPermutation(Chunk(sorted), draw, 0);
    DrawBandsSorted(Chunk(sorted), draw, 0);
  }
}
