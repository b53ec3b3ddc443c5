/** The stateful extractor: the book, its lazily built sorted views, the
    last recorded mid price, snapshot and delta processing. */
module Extractor {
  import opened OrderBook
  import opened Events

  const DefaultMaxDepth: int := 50

  /** The cache is absent, or the side's sorted view of exactly `keys`. */
  ghost predicate CacheOf(cache: Option<seq<real>>, side: Side, keys: set<real>) {
    cache.Some? ==> SortedView(cache.value, side, keys)
  }

  /** A cache after a lazy rebuild: kept if it was there, otherwise built
      from `keys`. */
  ghost predicate Refreshed(before: Option<seq<real>>, after: Option<seq<real>>,
                            side: Side, keys: set<real>) {
    && after.Some?
    && (before.Some? ==> after == before)
    && (before.None? ==> SortedView(after.value, side, keys))
  }

  class LobEventExtractor {
    const maxDepth: int
    var asks: map<real, real>
    var bids: map<real, real>
    var sortedAsks: Option<seq<real>>
    var sortedBids: Option<seq<real>>
    var lastMidPrice: Option<MidPrice>

    /** Between calls, a cached view is the sorted view of the current keys. */
    ghost predicate Valid()
      reads this
    {
      CacheOf(sortedAsks, Ask, asks.Keys) && CacheOf(sortedBids, Bid, bids.Keys)
    }

    constructor (maxDepth: int)
      ensures Valid()
      ensures this.maxDepth == maxDepth
      ensures asks == map[] && bids == map[]
      ensures sortedAsks == None && sortedBids == None
      ensures lastMidPrice == None
    {
      this.maxDepth := maxDepth;
      asks, bids := map[], map[];
      sortedAsks, sortedBids := None, None;
      lastMidPrice := None;
    }

    method InvalidateSorted()
      modifies this`sortedAsks, this`sortedBids
      ensures sortedAsks == None && sortedBids == None
    {
      sortedAsks := None;
      sortedBids := None;
    }

    method EnsureSorted()
      modifies this`sortedAsks, this`sortedBids
      ensures Refreshed(old(sortedAsks), sortedAsks, Ask, asks.Keys)
      ensures Refreshed(old(sortedBids), sortedBids, Bid, bids.Keys)
    {
      if sortedAsks.None? {
        var s := SortKeys(asks.Keys, Ask);
        sortedAsks := Some(s);
      }
      if sortedBids.None? {
        var s := SortKeys(bids.Keys, Bid);
        sortedBids := Some(s);
      }
    }

    /** The mid price of the current book; reading it changes nothing. */
    function MidPrice(): MidPrice
      reads this
    {
      MidOf(asks, bids)
    }

    /** Replaces the whole book with the snapshot's levels. */
    method ProcessSnapshot(askLevels: seq<Level>, bidLevels: seq<Level>)
      modifies this`asks, this`bids, this`sortedAsks, this`sortedBids
      ensures Valid()
      ensures asks == BuildLevels(askLevels) && bids == BuildLevels(bidLevels)
      ensures sortedAsks == None && sortedBids == None
    {
      asks := BuildLevels(askLevels);
      bids := BuildLevels(bidLevels);
      InvalidateSorted();
    }

    /** The rank of `price` on `side` in its cached sorted view, built from
        the current book if absent: the insertion point of the price. */
    method DepthOf(price: real, side: Side) returns (d: nat)
      modifies this`sortedAsks, this`sortedBids
      ensures Refreshed(old(sortedAsks), sortedAsks, Ask, asks.Keys)
      ensures Refreshed(old(sortedBids), sortedBids, Bid, bids.Keys)
      ensures d == Depth(if side == Ask then sortedAsks.value else sortedBids.value, side, price)
    {
      EnsureSorted();
      var prices := if side == Ask then sortedAsks.value else sortedBids.value;
      var i := 0;
      while i < |prices|
        invariant 0 <= i <= |prices|
        invariant forall j :: 0 <= j < i ==> !Reaches(side, prices[j], price)
      {
        if Reaches(side, prices[i], price) {
          return i;
        }
        i := i + 1;
      }
      return |prices|;
    }

    /** One update of a delta (one pass of either loop): its event, ranked
        against the cached views of the book `pre` as it was before the
        delta, then the level's mutation, whatever the depth. */
    method ProcessUpdate(side: Side, u: Level, index: int, ghost pre: Book) returns (e: Option<LobEvent>)
      requires CacheOf(sortedAsks, Ask, pre.asks.Keys) && CacheOf(sortedBids, Bid, pre.bids.Keys)
      requires (sortedAsks.None? || sortedBids.None?) ==> Book(asks, bids) == pre
      modifies this`asks, this`bids, this`sortedAsks, this`sortedBids
      ensures CacheOf(sortedAsks, Ask, pre.asks.Keys) && CacheOf(sortedBids, Bid, pre.bids.Keys)
      ensures sortedAsks.Some? && sortedBids.Some?
      ensures e == StepEvent(side, pre.Levels(side).Keys, Book(old(asks), old(bids)), u, index, maxDepth)
      ensures Book(asks, bids) == Book(old(asks), old(bids)).WithLevels(side,
                Upsert(Book(old(asks), old(bids)).Levels(side), u.price, u.volume))
    {
      var price, vol := u.price, u.volume;
      var prevVol := Get(if side == Ask then asks else bids, price);
      var depth := DepthOf(price, side);
      DepthIsBetterCount(if side == Ask then sortedAsks.value else sortedBids.value,
                         side, pre.Levels(side).Keys, price);
      e := Classify(side, price, vol, prevVol, depth, index, MidPrice(), maxDepth);
      if side == Ask {
        if vol == 0.0 {
          asks := asks - {price};
        } else {
          asks := asks[price := vol];
        }
      } else {
        if vol == 0.0 {
          bids := bids - {price};
        } else {
          bids := bids[price := vol];
        }
      }
    }

    /** One of the two loops of a delta: the updates of `side` in order,
        each ranked against the cached views of `pre`, the book before the
        delta. The book and the events are those of SideRun from the book
        on entry. */
    method ProcessSide(side: Side, ups: seq<Level>, index: int, ghost pre: Book)
      returns (events: seq<LobEvent>)
      requires CacheOf(sortedAsks, Ask, pre.asks.Keys) && CacheOf(sortedBids, Bid, pre.bids.Keys)
      requires (sortedAsks.None? || sortedBids.None?) ==> Book(asks, bids) == pre
      modifies this`asks, this`bids, this`sortedAsks, this`sortedBids
      ensures CacheOf(sortedAsks, Ask, pre.asks.Keys) && CacheOf(sortedBids, Bid, pre.bids.Keys)
      ensures (sortedAsks.None? || sortedBids.None?) ==> Book(asks, bids) == pre
      ensures SideRun(side, pre.Levels(side).Keys, Book(old(asks), old(bids)), ups, index, maxDepth)
           == Outcome(Book(asks, bids), events)
    {
      ghost var start := Book(asks, bids);
      ghost var keys := pre.Levels(side).Keys;
      events := [];
      var i := 0;
      while i < |ups|
        invariant 0 <= i <= |ups|
        invariant SideRun(side, keys, start, ups[..i], index, maxDepth) == Outcome(Book(asks, bids), events)
        invariant CacheOf(sortedAsks, Ask, pre.asks.Keys) && CacheOf(sortedBids, Bid, pre.bids.Keys)
        invariant (sortedAsks.None? || sortedBids.None?) ==> Book(asks, bids) == pre
      {
        ghost var before := Book(asks, bids);
        var e := ProcessUpdate(side, ups[i], index, pre);
        SideRunStep(side, keys, start, ups, i, index, maxDepth, before, events, e);
        if e.Some? {
          events := events + [e.value];
        }
        i := i + 1;
      }
      assert ups[..i] == ups;
    }

    /** Applies a delta and returns its events: the new book and the events
        are those of ApplyDelta on the book before the call. */
    method ProcessDelta(askUps: seq<Level>, bidUps: seq<Level>, index: int) returns (events: seq<LobEvent>)
      requires Valid()
      modifies this`asks, this`bids, this`sortedAsks, this`sortedBids
      ensures Valid()
      ensures Outcome(Book(asks, bids), events)
           == ApplyDelta(Book(old(asks), old(bids)), askUps, bidUps, index, maxDepth)
      ensures sortedAsks == None && sortedBids == None
    {
      ghost var pre := Book(asks, bids);
      var askEvents := ProcessSide(Ask, askUps, index, pre);
      var bidEvents := ProcessSide(Bid, bidUps, index, pre);
      events := askEvents + bidEvents;
      InvalidateSorted();
    }
  }
}
