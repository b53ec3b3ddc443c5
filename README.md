# LOB event extractor — a verified model

This project models `LOBEventExtractor`, the in-memory limit order book of
the `lob_event_extractor` package. The extractor replays
exchange-style L2 snapshot and delta messages into one price → volume map
per side. It classifies every level update of a delta as one of six
semantic events (`market_buy`, `market_sell`, `sell_limit_added`,
`sell_limit_canceled`, `buy_limit_added`, `buy_limit_canceled`), ranks each
by its depth on its side, and tracks the mid price.
The two drivers, `parse_file` and `infer_events_from_lines`, run the
extractor over a stream of messages and keep a line only when the mid
price changed. They are modelled as folds over already decoded messages.

Layout:

- `book.dfy` (module `OrderBook`): the book as two maps, snapshot
  construction, best prices, the mid price, and the side's sorted view of
  the keys (`sorted(...)`, written as a selection loop). It also holds
  the depth scan and its meaning: a count of strictly better levels.
- `events.dfy` (module `Events`): the `LOBEvent` record, the per-update
  classification, one side's loop as a pure fold (`SideRun`) and a whole
  delta (`ApplyDelta`), with the lemmas about event order and the book left
  behind.
- `extractor.dfy` (module `Extractor`): the class `LobEventExtractor` with
  its mutable fields (`asks`, `bids`, the two lazily built sorted caches and
  `lastMidPrice`), its methods proved against the functions above.
- `drivers.dfy` (module `Drivers`): the mid-change gate, the two driver
  loops as methods over a fresh extractor, and the folds that specify them.
- `scenarios.dfy` (module `Scenarios`): concrete replays with every field
  of the emitted events, including the two timing views inside one delta.

Modelling decisions:

- Prices and volumes are `real`; the normalised ratios are exact division.
- The NaN mid price that `_mid_price` returns for an empty side is the
  constructor `Invalid` of `MidPrice`.
- All depths of one delta are ranked against the book as it was before the
  delta. The sorted caches are filled on the first depth query of the
  delta and cleared only after it, after a snapshot and at construction.
  The pure model states this as `BetterCount(preKeys, side, price)`, the
  number of pre-delta keys strictly better than the price.
  `Extractor.LobEventExtractor.ProcessUpdate` shows that the cached scan
  returns exactly that.
- The previous volume and the event's mid price are read from the running
  book. It already holds the earlier updates of the same delta, but not the
  current update: the event's arguments are evaluated before the level is
  popped or assigned.
- Code and documented design differ on the mid-change gate. The model
  follows the code. In the code, `last != mid` on two NaNs is true, so an
  invalid mid after an invalid mid is recorded again
  (`lob_event_extractor/extractor.py:182`, `:203`). The documented rule
  says such a transition is not a change. `Drivers.MidChanged` states the
  code's behaviour as an if-and-only-if: the gate holds back exactly a
  valid mid equal to the last recorded valid mid.
- `parse_file` and `infer_events_from_lines` use the same gate.
  `parse_file`'s explicit invalid → valid case (line 179) is already
  implied by the inequality (`Drivers.GatesAgree`).

## Model

| member | source | states |
|---|---|---|
| OrderBook.Upsert | lob_event_extractor/extractor.py:123-130 | a zero volume removes the price; any other volume stores it; every other price keeps its presence and volume |
| OrderBook.BuildLevels | lob_event_extractor/extractor.py:77-78 | no contract; the map a snapshot builds from its pairs, whose properties BuildLevelsLastWins states |
| OrderBook.BuildLevelsLastWins | lob_event_extractor/extractor.py:77-78 | after a snapshot, every listed price is a key and every key was listed; the last pair of a duplicated price gives its volume, zero volumes included |
| OrderBook.Depth | lob_event_extractor/extractor.py:92-95 | the scan's result is at most the list length; every entry before it has not been reached by the price; the entry at it, if any, has been reached (≥ the price for asks, ≤ for bids) |
| OrderBook.DepthIsBetterCount | lob_event_extractor/extractor.py:81-95 | over a sorted view of exactly the side's keys, the depth of any price equals the number of keys strictly better than it, which is its insertion point when absent |
| OrderBook.BestPrice | lob_event_extractor/extractor.py:69-70 | for a non-empty side, the result is a key with no key strictly better: the minimum ask or the maximum bid |
| OrderBook.BestHasDepthZero | lob_event_extractor/extractor.py:81-95 | the best ask and the best bid have depth 0 |
| OrderBook.MidOf | lob_event_extractor/extractor.py:64-71 | the mid is valid iff both sides are non-empty, and is then (best bid + best ask) / 2 |
| OrderBook.SortKeys | lob_event_extractor/extractor.py:56-62 | returns the keys strictly ascending (asks) or strictly descending (bids), exactly the given keys |
| Events.Action.Label | lob_event_extractor/extractor.py:114-147 | no contract; the action string a LOBEvent record carries (the record, lines 20-29, is the datatype LobEvent) |
| Events.LabelsDistinct | lob_event_extractor/extractor.py:114-147 | two actions carry the same string iff they are the same action |
| Events.ActionOf | lob_event_extractor/extractor.py:111-129 | the chosen action belongs to the side of the update |
| Events.Classify | lob_event_extractor/extractor.py:109-129 | an event is produced iff depth < max_depth and the level is removed or its volume changes; it carries the price, depth, index, mid and previous volume; the action is market for volume 0, added for a rise, canceled for a fall |
| Events.ClassifyRoundTrip | lob_event_extractor/extractor.py:109-129 | the event determines the update's new volume; its volume is the previous volume for a market event, the rise for an added event and the fall for a canceled one, positive for limit events; the normalised value is −1 for a removal, volume / previous volume otherwise, and 1.0 without a previous volume |
| Events.StepEvent | lob_event_extractor/extractor.py:105-129 | no contract; one pass of either loop as a value, Classify with depth ranked in the pre-delta keys and previous volume and mid from the running book; Classify and ClassifyRoundTrip state its properties |
| Events.SideRun | lob_event_extractor/extractor.py:104-130 | one side's loop yields at most one event per update, all of that side, within max_depth, with the delta's index, and leaves the other side untouched |
| Events.ApplyDelta | lob_event_extractor/extractor.py:97-152 | a delta yields at most one event per update, every depth below max_depth, and every event carries the delta's index; ask events come first, so no ask event follows a bid event |
| Events.EmittingShape | lob_event_extractor/extractor.py:104-130 | the updates that emit are as many as the events and are listed in strictly increasing input order |
| Events.SideRunInOrder | lob_event_extractor/extractor.py:104-130 | the k-th event of a side is the event of its k-th emitting update, evaluated on the book after the earlier updates and ranked against the keys before the delta |
| Events.SideRunSilent | lob_event_extractor/extractor.py:111-130 | an update that does not emit has no event: it was gated by depth or left its volume unchanged |
| Events.SideRunLastUpdateWins | lob_event_extractor/extractor.py:123-130 | after a side's loop, each updated price holds its last given volume, or is absent if that was 0 |
| Events.SideRunUntouched | lob_event_extractor/extractor.py:104-130 | after a side's loop, a price no update mentions keeps its level |
| Events.SideRunBookIgnoresGate | lob_event_extractor/extractor.py:111-130 | the book a side's loop leaves does not depend on max_depth |
| Events.DeltaBookIgnoresGate | lob_event_extractor/extractor.py:97-152 | the book after a delta does not depend on max_depth: a gated update still mutates |
| Events.DeltaLastUpdateWins | lob_event_extractor/extractor.py:104-148 | after a delta, each updated price of either side holds its last given volume on that side, or is absent if that was 0 |
| Events.DeltaUntouched | lob_event_extractor/extractor.py:104-148 | after a delta, a price that no update of its side mentions keeps its level |
| Extractor.LobEventExtractor.constructor | lob_event_extractor/extractor.py:42-50 | a new extractor has the given max_depth, an empty book, no caches and no recorded mid |
| Extractor.LobEventExtractor.InvalidateSorted | lob_event_extractor/extractor.py:52-54 | both caches are cleared |
| Extractor.LobEventExtractor.EnsureSorted | lob_event_extractor/extractor.py:56-62 | a present cache is kept; an absent one is filled with the sorted view of the current keys |
| Extractor.LobEventExtractor.MidPrice | lob_event_extractor/extractor.py:64-71 | no contract; `_mid_price` on the current maps, a function that only reads the object, so computing it changes nothing; MidOf states its value |
| Extractor.LobEventExtractor.ProcessSnapshot | lob_event_extractor/extractor.py:73-79 | the book becomes exactly the maps built from the snapshot's pairs, nothing of the old book remains, and both caches are cleared |
| Extractor.LobEventExtractor.DepthOf | lob_event_extractor/extractor.py:81-95 | fills an absent cache from the current keys and returns the scan's depth over the side's cache |
| Extractor.LobEventExtractor.ProcessUpdate | lob_event_extractor/extractor.py:105-130 | one pass of either loop: its event is the classification with depth ranked in the pre-delta keys and previous volume and mid from the book before this update; the level is then updated whatever the depth; the caches remain views of the pre-delta keys |
| Extractor.LobEventExtractor.ProcessSide | lob_event_extractor/extractor.py:104-130 | one side's loop: the new book and the events are those of SideRun from the book on entry, depths ranked against the pre-delta keys |
| Extractor.LobEventExtractor.ProcessDelta | lob_event_extractor/extractor.py:97-152 | the new book and the returned events are those of ApplyDelta on the book before the call; the caches are cleared afterwards |
| Drivers.MidChanged | lob_event_extractor/extractor.py:203 | the gate holds back exactly a valid mid equal to the last recorded valid mid; the first observation and an invalid → valid transition are always recorded |
| Drivers.ParseFileGate | lob_event_extractor/extractor.py:179-182 | the same if-and-only-if for parse_file's gate with its explicit invalid → valid case |
| Drivers.GatesAgree | lob_event_extractor/extractor.py:179-182 | the two drivers' gates agree on every input |
| Drivers.InferRunExtend | lob_event_extractor/extractor.py:196-206 | appending a snapshot line to a run replaces the book with the snapshot's maps and leaves the recorded mid, the events and the trace unchanged; appending any other line applies it as a delta to the book, whose events and mid are appended (and the mid recorded) exactly when its mid passes the gate, and dropped otherwise |
| Drivers.InferStep | lob_event_extractor/extractor.py:196-206 | no contract; one line of infer_events_from_lines, whose effect over whole runs InferRunExtend and InferRun state |
| Drivers.ParseStep | lob_event_extractor/extractor.py:169-186 | no contract; one line of parse_file, whose effect over whole runs ParseRunExtend states |
| Drivers.InferRun | lob_event_extractor/extractor.py:188-207 | the mid trace has at most one entry per line, its last entry is the recorded mid, and no two consecutive entries are the same valid mid |
| Drivers.FirstDeltaRecorded | lob_event_extractor/extractor.py:197-205 | the first non-snapshot line is always recorded, whatever snapshots precede it |
| Drivers.InferEventsFromLines | lob_event_extractor/extractor.py:188-207 | the loop over a fresh default-depth extractor returns the events and mid trace of InferRun |
| Drivers.ParseRun | lob_event_extractor/extractor.py:164-186 | parse_file yields at most one record per line, with strictly increasing line indices; the last yielded mid is the recorded one, and consecutive yields never repeat a valid mid |
| Drivers.ParseRunExtend | lob_event_extractor/extractor.py:169-186 | appending a line to a run of parse_file yields it exactly when the mid after it passes the gate, with its own index, its delta events (none for a snapshot or any other line) and that mid; otherwise the output and the recorded mid are unchanged; the book always moves on |
| Drivers.ParseFile | lob_event_extractor/extractor.py:164-186 | the loop over a fresh extractor yields the records of ParseRun |
| Scenarios.SnapshotBookIs | lob_event_extractor/extractor.py:77-78 | a two-level snapshot per side builds exactly those maps |
| Scenarios.SnapshotMid | lob_event_extractor/extractor.py:64-71 | the snapshot's mid is (100 + 101) / 2 |
| Scenarios.RemoveBestAsk | lob_event_extractor/extractor.py:111-123 | removing the best ask yields one market_buy of the whole level at depth 0, normalised −1, with the mid read before removal |
| Scenarios.ShrinkBestBid | lob_event_extractor/extractor.py:142-148 | shrinking the best bid from 5 to 3 yields a buy_limit_canceled of 2, normalised 0.4 |
| Scenarios.SecondOfTwo | lob_event_extractor/extractor.py:104-130 | after 101 is removed in the same delta, an update at 102 has depth 1 (ranked behind the removed 101), previous volume 5 and the running mid 101 |
| Scenarios.TwoTimingViews | lob_event_extractor/extractor.py:104-151 | the two events of a two-update ask delta, showing the pre-delta depth and the running mid side by side |
| Scenarios.GateDropsButMutates | lob_event_extractor/extractor.py:124-130 | with max_depth 1 the second update emits nothing, yet its level is updated |
| Scenarios.RemoveAbsentLevel | lob_event_extractor/extractor.py:111-123 | removing an absent ask still yields a market_buy of volume 0 at its insertion depth, normalised 1.0 |

## Left out

- Reading the file, `json.loads`, the `float(p)` conversion of raw JSON
  values, the `argparse` / `print` demo and the generator mechanics
  (`lob_event_extractor/extractor.py:166-168`, `196`, `209-218`) are I/O
  and library calls. The drivers take already decoded messages.
  A message's missing `"a"`/`"b"` list is its empty list.
  In `parse_file` a missing `"data"` key reads as two empty lists
  (lines 171, 175), which a `Message` with empty lists expresses.
  In `infer_events_from_lines` it raises a `KeyError` (lines 198, 201);
  that failure is part of decoding and is not modelled.
- Floating point: prices and volumes are exact reals. Rounding in `change`
  and in the ratios is not modelled.
- Depth matching: `math.isclose(p, price)` in the scan (line 93) is taken
  as exact equality. It is then implied by the `>=` / `<=` test. A price
  within the tolerance of a level on its worse side is not modelled.
- `Drivers.ParseFileGate`: the code's first line calls `math.isnan(None)`
  (line 179), which raises. The model records the first line instead, as
  line 182 would.
- The conditional with identical branches at lines 108 and 136 is a single
  depth query.
- `LOBEvent.to_dict` / `asdict` (lines 31-32) is library serialisation. The
  drivers' results hold the event records themselves rather than
  dictionaries.
- `lob_event_extractor/__init__.py` only re-exports names and is not part
  of this model.
- The `mid_prices` list that `parse_file` fills (lines 165, 185) is never
  returned or read, so it is not modelled.
- `sorted(...)` is a library call. `OrderBook.SortKeys` computes it with its
  contract proved, and its cost is not modelled. Nor is the cost of the
  linear scan.
- `Extractor.LobEventExtractor.ProcessDelta`: the two loops run as two calls
  of `ProcessSide`, whose event lists are concatenated.
  The source appends to one list across both loops, which gives the same
  sequence.
- The `max_depth` and `index` parameters are unbounded integers; Python
  places no bound on them either.
