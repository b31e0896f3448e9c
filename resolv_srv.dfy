/**
 * `Resolv::DNS#each_srv_resource`: validates the service and protocol
 * labels, queries `_service._protocol.domain` for SRV records, and yields
 * them band by band in ascending priority, drawing within each band by
 * weight without replacement.
 *
 * The resolver is the function `getResources` from a query name to the
 * records it returns; the random source is the stream `rand`, whose value
 * number `n` is the `n`-th call to `rand` made by this method. The yielded
 * records are returned as one sequence, in the order they are yielded.
 */
module ResolvSrv {
  import opened SrvTypes
  import opened SrvName
  import opened WeightedDraw
  import opened PriorityBands

  /** The drawing of one band by weight, starting at value `n` of the stream. */
  function Drawing(rand: nat -> UnitRand): BandDraw {
    (band: seq<Srv>, n: nat) => Draw(band, rand, n)
  }

  lemma DrawingPermutes(rand: nat -> UnitRand)
    ensures Permutes(Drawing(rand))
  {
    forall band: seq<Srv>, n: nat ensures multiset(Drawing(rand)(band, n)) == multiset(band) {
      DrawPermutation(band, rand, n);
    }
  }

  /**
   * The whole method. A bad service label fails before the protocol is
   * looked at, and no query is made on failure. On success the records
   * fetched for `_service._protocol.domain` are each yielded exactly once,
   * in non-decreasing priority; `sorted` is the fetched records after the
   * in-place sort, and the output is that order cut into bands, each band
   * drawn by weight.
   */
  method EachSrvResource(service: Option<string>, protocol: Option<string>, domain: string,
                         getResources: string -> seq<Srv>, rand: nat -> UnitRand)
    returns (query: Option<string>, r: Result<seq<Srv>, Error>, ghost sorted: seq<Srv>)
    ensures r.Failure? <==> !ValidLabel(service) || !ValidLabel(protocol)
    ensures !ValidLabel(service) ==> r == Failure(InvalidService(service))
    ensures ValidLabel(service) && !ValidLabel(protocol) ==> r == Failure(InvalidProtocol(protocol))
    ensures query.None? <==> r.Failure?
    ensures r.Success? ==> query == Some("_" + service.value + "._" + protocol.value + "." + domain)
    ensures r.Success? ==> multiset(r.value) == multiset(getResources(query.value))
    ensures r.Success? ==> SortedByPriority(r.value)
    ensures r.Success? && getResources(query.value) == [] ==> r.value == []
    ensures r.Success? ==> SortedByPriority(sorted) && multiset(sorted) == multiset(getResources(query.value))
    ensures r.Success? ==> r.value == DrawBands(Chunk(sorted), Drawing(rand), 0)
  {
    var name := QueryName(service, protocol, domain);
    if name.Failure? {
      return None, Failure(name.error), [];
    }
    query := Some(name.value);
    var fetched := getResources(name.value);
    var byPriority := SortedCopy(fetched);
    sorted := byPriority;
    // The runs come out in ascending priority, so the `sort` of the runs
    // keeps them as they are.
    var bands := Chunk(byPriority);
    ChunkAscending(byPriority);
    var out := DrawEachBand(bands, rand);
    DrawingPermutes(rand);
    SelectionOrder(sorted, Drawing(rand));
    r := Success(out);
  }

  /** The fetched list, sorted by priority in place: the same records, priorities non-decreasing. */
  method SortedCopy(fetched: seq<Srv>) returns (sorted: seq<Srv>)
    ensures SortedByPriority(sorted)
    ensures multiset(sorted) == multiset(fetched)
  {
    var a := new Srv[|fetched|](i requires 0 <= i < |fetched| => fetched[i]);
    assert a[..] == fetched;
    SortByPriority(a);
    sorted := a[..];
  }

  /**
   * The `each` over the bands: each band drawn in turn, the stream of
   * `rand` values running on from one band to the next.
   */
  method DrawEachBand(bands: seq<seq<Srv>>, rand: nat -> UnitRand) returns (out: seq<Srv>)
    ensures out == DrawBands(bands, Drawing(rand), 0)
  {
    out := [];
    var n := 0;
    for b := 0 to |bands|
      invariant out == DrawBands(bands[..b], Drawing(rand), 0)
      invariant n == |out| == |Flatten(bands[..b])|
    {
      var drawn;
      drawn, n := DrawBand(bands[b], rand, n);
      DrawPermutation(bands[b], rand, |out|);
      DrawBandsStep(bands, b, Drawing(rand), out, drawn);
      out := out + drawn;
    }
    assert bands[..|bands|] == bands;
  }
}
