# resolv-srv: ordered SRV selection, modelled in Dafny

This project models `Resolv::DNS#each_srv_resource`, the one method the
resolv-srv library adds to Ruby's resolver. It checks the service and
protocol labels (service first), builds the query name
`_<service>._<protocol>.<domain>`, fetches the SRV records for that name,
sorts them by priority and cuts them into bands of equal priority. It then
yields band after band, lowest priority value first. Within a band it draws
records without replacement, each with a chance proportional to
`weight + 1`.

Modules, one per part of the method:

- `SrvTypes` (`srv_types.dfy`): the SRV record, the `ArgumentError` cases,
  and one exact value of `rand`.
- `SrvName` (`srv_name.dfy`): label checks and the query name, with a
  parser that proves the name loses nothing.
- `WeightedDraw` (`weighted_draw.dfy`): the draw inside one band. This
  covers the `inject` that sets `total_weight`, the selector, the
  `find_index` scan, `delete_at`, and the `until available.empty?` loop.
- `PriorityBands` (`priority_bands.dfy`): the in-place `sort_by!` on an
  array, `chunk`, and drawing band after band.
- `ResolvSrv` (`resolv_srv.dfy`): the whole method.

The method's outside pieces become parameters:

- The resolver is a function `getResources` from query name to records.
- Ruby's `rand` is a stream `rand: nat -> UnitRand`. Value `n` is the
  `n`-th call to `rand` the method makes. Each value is an exact fraction
  `num / den` in [0, 1), so `Integer(rand * total_weight) + 1` becomes
  `num * total_weight / den + 1`.
- The records the method yields are returned as one sequence, in yield
  order.
- `nil` for a label is `None`.

## Model

| member | source | states |
|---|---|---|
| SrvName.QueryName | lib/resolv-srv.rb:23-30 | Fails exactly when a label is nil, empty or contains '.'. A bad service is reported (with its value) even when the protocol is also bad. Otherwise the name is `_<service>._<protocol>.<domain>` |
| SrvName.QueryNameRoundTrip | lib/resolv-srv.rb:30 | For accepted labels, service, protocol and domain can be read back from the query name |
| SrvName.ParseQueryNameSound | lib/resolv-srv.rb:30 | Every name that parses is the query name of accepted labels, so the parser is an exact inverse |
| SrvName.QueryNameInjective | lib/resolv-srv.rb:30 | Different (service, protocol, domain) triples with accepted labels never share a query name |
| WeightedDraw.ShiftedWeight | lib/resolv-srv.rb:38-48 | With the 1-based shift, every record adds at least 1 to the band's total weight, weight 0 included |
| WeightedDraw.Pick | lib/resolv-srv.rb:54-57 | A selector between 1 and the total always picks a record of the list |
| WeightedDraw.PickInSlice | lib/resolv-srv.rb:54-57 | The picked record is the one whose slice of the running sum of `weight + 1` holds the selector |
| WeightedDraw.PickUnique | lib/resolv-srv.rb:54-57 | Only one index has the selector in its slice, and it is the one picked |
| WeightedDraw.SelectorCount | lib/resolv-srv.rb:53-57 | Exactly `weight + 1` of the `total_weight` selector values pick a given record, weight 0 included (the trade-off the NOTE at lines 12-14 describes). Given a selector uniform on [1, total_weight], this is the `(weight + 1) / total` first-draw chance the library's tests expect; that uniformity is not proved here |
| WeightedDraw.RemoveAtWeight | lib/resolv-srv.rb:58-61 | Deleting a record lowers the total by exactly that record's `weight + 1`, so the decremented `total_weight` stays the remaining records' total |
| WeightedDraw.RemoveAtMultiset | lib/resolv-srv.rb:58 | `delete_at` removes exactly the selected record and keeps every other one |
| WeightedDraw.FindSelectedIndex | lib/resolv-srv.rb:54-57 | The `find_index` loop finds an index exactly when the list is non-empty and the selector is at most the total. For selectors from 1 to the total it finds the record `Pick` names |
| WeightedDraw.Selector | lib/resolv-srv.rb:53 | `Integer(rand * total_weight) + 1` lies between 1 and `total_weight` whenever the total is positive |
| WeightedDraw.SelectorOnto | lib/resolv-srv.rb:53 | Every selector value from 1 to the total comes from some value of `rand` |
| WeightedDraw.DrawPermutation | lib/resolv-srv.rb:50-64 | Drawing a band yields each of its records exactly once, with as many draws as records |
| WeightedDraw.DrawFrom | lib/resolv-srv.rb:53 | A band's draw uses only the `rand` values from its own starting point on |
| WeightedDraw.EveryRecordReachable | lib/resolv-srv.rb:38-44 | For every record and every position in its band, some `rand` values yield that record at that position. Weight-0 records are never forced last |
| WeightedDraw.InitialTotalWeight | lib/resolv-srv.rb:48 | The `inject` sums `weight + 1` over the band |
| WeightedDraw.DrawOnce | lib/resolv-srv.rb:53-61 | One loop iteration: the selected record followed by the draw of what remains equals the draw of the list before. The list shrinks by one, and the new `total_weight` is the remaining records' total |
| WeightedDraw.DrawBand | lib/resolv-srv.rb:48-64 | The band loop yields `Draw` of the band. It keeps `total_weight` equal to the available records' total, and uses exactly one `rand` value per record |
| PriorityBands.SortByPriority | lib/resolv-srv.rb:35 | The in-place `sort_by!(&:priority)` leaves the array sorted by priority, holding the same records |
| PriorityBands.Chunk | lib/resolv-srv.rb:35 | `chunk(&:priority)` gives non-empty bands of one priority each. Neighbouring bands differ in priority, and joined back in order they give the input |
| PriorityBands.ChunkAscending | lib/resolv-srv.rb:35 | On sorted records the bands strictly ascend in priority, so the `.sort` over the bands keeps their order |
| PriorityBands.DrawBandsAppend | lib/resolv-srv.rb:37 | One more band appends its draw, which starts after the `rand` values of every earlier record |
| PriorityBands.DrawBandsPermutation | lib/resolv-srv.rb:37-65 | Drawing band after band yields every record of every band exactly once |
| PriorityBands.DrawBandsSorted | lib/resolv-srv.rb:37-65 | With bands in ascending priority, yielded priorities never decrease, so each band is used up before the next begins |
| PriorityBands.SelectionOrder | spec/each_srv_resource_spec.rb:70-84 | For records sorted by priority, the yielded sequence is a permutation of them, in non-decreasing priority |
| ResolvSrv.SortedCopy | lib/resolv-srv.rb:33-35 | The fetched list, sorted in place: the same records, in non-decreasing priority |
| ResolvSrv.DrawEachBand | lib/resolv-srv.rb:37-65 | The `each` over the bands yields the band-by-band draw. Each band starts at the `rand` value after the previous band's last |
| ResolvSrv.EachSrvResource | lib/resolv-srv.rb:22-66 | The whole method: the error cases, and no query is made on error. Otherwise the query name is exactly `_<service>._<protocol>.<domain>`, and the yielded records are a permutation of the fetched ones in non-decreasing priority. They equal the band-by-band draw of the sorted records, and an empty fetch yields nothing |

## Left out

- The DNS query behind `getresources` is left out: network I/O, the `Resolv::DNS` object's lifetime (`new`, `close`) and resolver errors. The resolver is the parameter `getResources`.
- The random source: Ruby's `rand` returns a floating-point number. The model uses exact fractions in [0, 1), so rounding in `rand * total_weight` is not modelled.
- SelectorCount: the probability distribution that the library's statistical test samples is not modelled, and neither is the claim that `Integer(rand * total_weight) + 1` is uniform on [1, total_weight]. The model proves the counting fact behind the distribution instead: `weight + 1` out of `total_weight` selector values pick each record. `SelectorOnto` shows only that every selector value can occur.
- SortByPriority: Ruby's `sort_by!` is not stable, and the model's insertion sort is. The contract is only "sorted and the same records", which any `sort_by!` result meets. The within-band order the draw starts from is therefore one of the possible ones.
- `.sort` over the `[priority, records]` pairs that `chunk` produces is not a separate step. `ChunkAscending` proves it would leave the pairs in place, since their priorities strictly ascend.
- Yielding to a block is modelled as returning all yielded records in order. A block that stops early sees a prefix of that sequence. Exceptions raised by the block are not modelled.
- `domain` is a string. Ruby would turn a `nil` domain into an empty string in the query name, and that case is not modelled. Labels are strings or `nil`; other Ruby objects passed as labels are not modelled.
- The `ArgumentError` message text is not modelled; the error records which label was bad and its value.
- SRV fields are unbounded naturals. The 16-bit widths of priority, weight and port do not affect the algorithm, which only adds and compares them.
- `examples/active-directory.rb` is not part of this model. It is a usage example: it feeds the yielded (target, port) pairs to Net::LDAP as its list of servers for a credentialed search over StartTLS. It adds connection setup and terminal I/O, and nothing to the algorithm.
