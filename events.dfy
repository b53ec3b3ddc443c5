/** The semantic events and the rules that derive them from one delta:
    per-update classification, the per-side fold and the whole delta. */
module Events {
  import opened OrderBook

  datatype Action =
    | MarketBuy
    | MarketSell
    | SellLimitAdded
    | SellLimitCanceled
    | BuyLimitAdded
    | BuyLimitCanceled
  {
    /** The action string the record carries. */
    function Label(): string {
      match this
      case MarketBuy => "market_buy"
      case MarketSell => "market_sell"
      case SellLimitAdded => "sell_limit_added"
      case SellLimitCanceled => "sell_limit_canceled"
      case BuyLimitAdded => "buy_limit_added"
      case BuyLimitCanceled => "buy_limit_canceled"
    }

    /** The book side whose updates produce this action. */
    function SideOf(): Side {
      if this in {MarketBuy, SellLimitAdded, SellLimitCanceled} then Ask else Bid
    }
  }

  /** Distinct actions carry distinct strings, so a record's action string
      identifies its action. */
  lemma LabelsDistinct(a: Action, b: Action)
    ensures a.Label() == b.Label() <==> a == b
  {
  }

  /** A level removed (volume 0), grown, or shrunk. */
  datatype Kind = Market | Added | Canceled

  function ActionOf(side: Side, kind: Kind): (a: Action)
    ensures a.SideOf() == side
  {
    match (side, kind)
    case (Ask, Market) => MarketBuy
    case (Ask, Added) => SellLimitAdded
    case (Ask, Canceled) => SellLimitCanceled
    case (Bid, Market) => MarketSell
    case (Bid, Added) => BuyLimitAdded
    case (Bid, Canceled) => BuyLimitCanceled
  }

  function KindOf(a: Action): Kind {
    match a
    case MarketBuy => Market
    case MarketSell => Market
    case SellLimitAdded => Added
    case BuyLimitAdded => Added
    case SellLimitCanceled => Canceled
    case BuyLimitCanceled => Canceled
  }

  datatype LobEvent = LobEvent(
    action: Action,
    price: real,
    volume: real,
    depth: int,
    index: int,
    midPrice: MidPrice,
    previousVol: real,
    volumeChangeNormalized: real)

  /** x / previous volume, or the sentinel 1.0 when there was no volume. */
  function Ratio(x: real, prevVol: real): real {
    if prevVol > 0.0 then x / prevVol else 1.0
  }

  /** The event (if any) one update produces: `vol` is the new total at
      `price`, `prevVol` the volume there before this update, `depth` its
      rank and `mid` the mid price read before the update is applied. */
  function Classify(side: Side, price: real, vol: real, prevVol: real, depth: int,
                    index: int, mid: MidPrice, maxDepth: int): (e: Option<LobEvent>)
    ensures e.Some? <==> depth < maxDepth && (vol == 0.0 || vol != prevVol)
    ensures e.Some? ==> e.value.price == price && e.value.depth == depth && e.value.index == index
                        && e.value.midPrice == mid && e.value.previousVol == prevVol
    ensures e.Some? ==> e.value.action == ActionOf(side, if vol == 0.0 then Market
                                                         else if vol > prevVol then Added
                                                         else Canceled)
  {
    var change := vol - prevVol;
    if vol == 0.0 then
      if depth < maxDepth then
        Some(LobEvent(ActionOf(side, Market), price, -change, depth, index, mid, prevVol, Ratio(change, prevVol)))
      else None
    else if depth < maxDepth then
      if change > 0.0 then
        Some(LobEvent(ActionOf(side, Added), price, change, depth, index, mid, prevVol, Ratio(change, prevVol)))
      else if change < 0.0 then
        Some(LobEvent(ActionOf(side, Canceled), price, -change, depth, index, mid, prevVol, Ratio(-change, prevVol)))
      else None
    else None
  }

  /** The volume at the event's price after the update, recovered from the
      event alone: the inverse of Classify on the new volume. */
  function VolumeAfter(e: LobEvent): real {
    match KindOf(e.action)
    case Market => 0.0
    case Added => e.previousVol + e.volume
    case Canceled => e.previousVol - e.volume
  }

  /** An emitted event determines the update's new volume; its volume is
      the previous volume for a removal and the size of the change
      otherwise (non-negative when the previous volume is); the normalised value is the change over the previous volume,
      -1 for a removal and positive otherwise, or 1.0 without a previous
      volume. */
  lemma ClassifyRoundTrip(side: Side, price: real, vol: real, prevVol: real, depth: int,
                          index: int, mid: MidPrice, maxDepth: int)
    requires Classify(side, price, vol, prevVol, depth, index, mid, maxDepth).Some?
    ensures var e := Classify(side, price, vol, prevVol, depth, index, mid, maxDepth).value;
      && VolumeAfter(e) == vol
      && (KindOf(e.action) == Market ==> e.volume == prevVol)
      && (KindOf(e.action) == Added ==> e.volume == vol - prevVol)
      && (KindOf(e.action) == Canceled ==> e.volume == prevVol - vol)
      && (prevVol >= 0.0 ==> e.volume >= 0.0)
      && (KindOf(e.action) != Market ==> e.volume > 0.0)
      && (prevVol > 0.0 && KindOf(e.action) == Market ==> e.volumeChangeNormalized == -1.0)
      && (prevVol > 0.0 && KindOf(e.action) != Market ==> e.volumeChangeNormalized == e.volume / prevVol
                                                          && e.volumeChangeNormalized > 0.0)
      && (prevVol <= 0.0 ==> e.volumeChangeNormalized == 1.0)
  {
    var e := Classify(side, price, vol, prevVol, depth, index, mid, maxDepth).value;
    var change := vol - prevVol;
    if vol == 0.0 {
      assert e == LobEvent(ActionOf(side, Market), price, -change, depth, index, mid, prevVol, Ratio(change, prevVol));
      assert KindOf(e.action) == Market;
      if prevVol > 0.0 {
        assert change / prevVol == -1.0;
      }
    } else if change > 0.0 {
      assert e == LobEvent(ActionOf(side, Added), price, change, depth, index, mid, prevVol, Ratio(change, prevVol));
      assert KindOf(e.action) == Added;
      if prevVol > 0.0 {
        assert change / prevVol > 0.0;
      }
    } else {
      assert change < 0.0;
      assert e == LobEvent(ActionOf(side, Canceled), price, -change, depth, index, mid, prevVol, Ratio(-change, prevVol));
      assert KindOf(e.action) == Canceled;
      if prevVol > 0.0 {
        assert -change / prevVol > 0.0;
      }
    }
  }

  /** The outcome of a batch of updates: the book after it and its events. */
  datatype Outcome = Outcome(book: Book, events: seq<LobEvent>)

  function ToSeq(e: Option<LobEvent>): seq<LobEvent> {
    if e.Some? then [e.value] else []
  }

  /** The event of update `u` applied to the running book `live`. Depth is
      ranked among `preKeys`, the side's keys before the whole delta; the
      previous volume and the mid price come from `live`. */
  function StepEvent(side: Side, preKeys: set<real>, live: Book, u: Level,
                     index: int, maxDepth: int): Option<LobEvent>
  {
    Classify(side, u.price, u.volume, Get(live.Levels(side), u.price),
             BetterCount(preKeys, side, u.price), index, live.Mid(), maxDepth)
  }

  /** One side's loop of a delta: every update is classified against the
      running book and then applied to it, whatever its depth. */
  function SideRun(side: Side, preKeys: set<real>, start: Book, ups: seq<Level>,
                   index: int, maxDepth: int): (r: Outcome)
    ensures |r.events| <= |ups|
    ensures forall k :: 0 <= k < |r.events| ==>
              && r.events[k].action.SideOf() == side
              && 0 <= r.events[k].depth < maxDepth
              && r.events[k].index == index
    ensures r.book.Levels(Other(side)) == start.Levels(Other(side))
    decreases |ups|
  {
    if ups == [] then Outcome(start, [])
    else
      var prior := SideRun(side, preKeys, start, ups[..|ups| - 1], index, maxDepth);
      var u := ups[|ups| - 1];
      var live := prior.book.Levels(side);
      Outcome(prior.book.WithLevels(side, Upsert(live, u.price, u.volume)),
              prior.events + ToSeq(StepEvent(side, preKeys, prior.book, u, index, maxDepth)))
  }

  /** One more update: from the outcome after updates 0..i-1, update i
      emits `e` and then changes its level. */
  lemma SideRunStep(side: Side, preKeys: set<real>, start: Book, ups: seq<Level>, i: nat,
                    index: int, maxDepth: int, book: Book, events: seq<LobEvent>, e: Option<LobEvent>)
    requires i < |ups|
    requires SideRun(side, preKeys, start, ups[..i], index, maxDepth) == Outcome(book, events)
    requires e == StepEvent(side, preKeys, book, ups[i], index, maxDepth)
    ensures SideRun(side, preKeys, start, ups[..i + 1], index, maxDepth)
         == Outcome(book.WithLevels(side, Upsert(book.Levels(side), ups[i].price, ups[i].volume)),
                    events + ToSeq(e))
  {
    assert ups[..i + 1][..i] == ups[..i];
  }

  /** A whole delta: all ask updates in order, then all bid updates in order,
      every depth ranked against the book as it was before the delta. */
  function ApplyDelta(book: Book, askUps: seq<Level>, bidUps: seq<Level>,
                      index: int, maxDepth: int): (r: Outcome)
    ensures |r.events| <= |askUps| + |bidUps|
    ensures forall k :: 0 <= k < |r.events| ==>
              0 <= r.events[k].depth < maxDepth && r.events[k].index == index
    ensures forall i, j :: 0 <= i < j < |r.events| && r.events[i].action.SideOf() == Bid
              ==> r.events[j].action.SideOf() == Bid
  {
    var a := SideRun(Ask, book.asks.Keys, book, askUps, index, maxDepth);
    var b := SideRun(Bid, book.bids.Keys, a.book, bidUps, index, maxDepth);
    Outcome(b.book, a.events + b.events)
  }

  /** The indices of the updates that emitted an event, in order. */
  function Emitting(side: Side, preKeys: set<real>, start: Book, ups: seq<Level>,
                    index: int, maxDepth: int): seq<nat>
    decreases |ups|
  {
    if ups == [] then []
    else
      var n := |ups| - 1;
      var prior := SideRun(side, preKeys, start, ups[..n], index, maxDepth);
      Emitting(side, preKeys, start, ups[..n], index, maxDepth)
        + (if StepEvent(side, preKeys, prior.book, ups[n], index, maxDepth).Some? then [n] else [])
  }

  /** Update n of `ups`, evaluated on the book after updates 0..n-1. */
  function EventAt(side: Side, preKeys: set<real>, start: Book, ups: seq<Level>, n: nat,
                   index: int, maxDepth: int): Option<LobEvent>
    requires n < |ups|
  {
    StepEvent(side, preKeys, SideRun(side, preKeys, start, ups[..n], index, maxDepth).book,
              ups[n], index, maxDepth)
  }

  lemma EventAtPrefix(side: Side, preKeys: set<real>, start: Book, ups: seq<Level>, m: nat, n: nat,
                      index: int, maxDepth: int)
    requires n < m <= |ups|
    ensures EventAt(side, preKeys, start, ups[..m], n, index, maxDepth)
         == EventAt(side, preKeys, start, ups, n, index, maxDepth)
  {
    assert ups[..m][..n] == ups[..n];
    assert ups[..m][n] == ups[n];
  }

  /** The emitting indices are as many as the events and strictly
      increasing indices of updates. */
  lemma {:induction false} EmittingShape(side: Side, preKeys: set<real>, start: Book,
                                         ups: seq<Level>, index: int, maxDepth: int)
    ensures var ix := Emitting(side, preKeys, start, ups, index, maxDepth);
      && |ix| == |SideRun(side, preKeys, start, ups, index, maxDepth).events|
      && (forall k :: 0 <= k < |ix| ==> ix[k] < |ups|)
      && (forall k, l :: 0 <= k < l < |ix| ==> ix[k] < ix[l])
    decreases |ups|
  {
    if ups != [] {
      var n := |ups| - 1;
      EmittingShape(side, preKeys, start, ups[..n], index, maxDepth);
    }
  }

  /** The events of one side are, in input order, the events of the
      updates that emit one; update k is evaluated on the book after
      updates 0..k-1 and ranked against the keys before the delta. */
  lemma {:induction false} SideRunInOrder(side: Side, preKeys: set<real>, start: Book,
                                          ups: seq<Level>, index: int, maxDepth: int)
    ensures var r := SideRun(side, preKeys, start, ups, index, maxDepth);
            var ix := Emitting(side, preKeys, start, ups, index, maxDepth);
      && |ix| == |r.events|
      && (forall k :: 0 <= k < |ix| ==> ix[k] < |ups|)
      && (forall k :: 0 <= k < |ix| ==>
            EventAt(side, preKeys, start, ups, ix[k], index, maxDepth) == Some(r.events[k]))
    decreases |ups|
  {
    EmittingShape(side, preKeys, start, ups, index, maxDepth);
    if ups != [] {
      var n := |ups| - 1;
      var init := ups[..n];
      SideRunInOrder(side, preKeys, start, init, index, maxDepth);
      var ix0 := Emitting(side, preKeys, start, init, index, maxDepth);
      var r0 := SideRun(side, preKeys, start, init, index, maxDepth);
      var r := SideRun(side, preKeys, start, ups, index, maxDepth);
      var ix := Emitting(side, preKeys, start, ups, index, maxDepth);
      var e := StepEvent(side, preKeys, r0.book, ups[n], index, maxDepth);
      assert r.events == r0.events + ToSeq(e);
      assert ix == ix0 + (if e.Some? then [n] else []);
      forall k | 0 <= k < |ix|
        ensures EventAt(side, preKeys, start, ups, ix[k], index, maxDepth) == Some(r.events[k])
      {
        if k < |ix0| {
          assert ix[k] == ix0[k] && r.events[k] == r0.events[k];
          EventAtPrefix(side, preKeys, start, ups, n, ix0[k], index, maxDepth);
        } else {
          assert ix[k] == n && r.events[k] == e.value;
          assert EventAt(side, preKeys, start, ups, n, index, maxDepth) == e;
        }
      }
    }
  }

  /** An update whose index is not among the emitting ones emits nothing. */
  lemma {:induction false} SideRunSilent(side: Side, preKeys: set<real>, start: Book,
                                         ups: seq<Level>, index: int, maxDepth: int)
    ensures var ix := Emitting(side, preKeys, start, ups, index, maxDepth);
      forall n :: 0 <= n < |ups| && n !in ix ==>
        EventAt(side, preKeys, start, ups, n, index, maxDepth).None?
    decreases |ups|
  {
    if ups != [] {
      var n := |ups| - 1;
      var init := ups[..n];
      SideRunSilent(side, preKeys, start, init, index, maxDepth);
      var ix0 := Emitting(side, preKeys, start, init, index, maxDepth);
      var ix := Emitting(side, preKeys, start, ups, index, maxDepth);
      assert forall m :: m in ix0 ==> m in ix;
      forall m | 0 <= m < n && m !in ix0
        ensures EventAt(side, preKeys, start, ups, m, index, maxDepth).None?
      {
        EventAtPrefix(side, preKeys, start, ups, n, m, index, maxDepth);
      }
    }
  }

  /** After a side's loop, an updated price holds the volume of its last
      update, and is absent if that volume was 0. */
  lemma {:induction false} SideRunLastUpdateWins(side: Side, preKeys: set<real>, start: Book,
                                                 ups: seq<Level>, index: int, maxDepth: int)
    ensures var m := SideRun(side, preKeys, start, ups, index, maxDepth).book.Levels(side);
      forall i :: (0 <= i < |ups| && forall j :: i < j < |ups| ==> ups[j].price != ups[i].price)
        ==> (ups[i].volume == 0.0 ==> ups[i].price !in m)
            && (ups[i].volume != 0.0 ==> ups[i].price in m && m[ups[i].price] == ups[i].volume)
    decreases |ups|
  {
    if ups != [] {
      var n := |ups| - 1;
      var init := ups[..n];
      SideRunLastUpdateWins(side, preKeys, start, init, index, maxDepth);
      var m0 := SideRun(side, preKeys, start, init, index, maxDepth).book.Levels(side);
      var m := SideRun(side, preKeys, start, ups, index, maxDepth).book.Levels(side);
      assert m == Upsert(m0, ups[n].price, ups[n].volume);
      forall i | 0 <= i < n && (forall j :: i < j < |ups| ==> ups[j].price != ups[i].price)
        ensures (ups[i].volume == 0.0 ==> ups[i].price !in m)
                && (ups[i].volume != 0.0 ==> ups[i].price in m && m[ups[i].price] == ups[i].volume)
      {
        assert init[i] == ups[i];
        forall j | i < j < |init| ensures init[j].price != init[i].price {
          assert init[j] == ups[j];
        }
        assert ups[n].price != ups[i].price;
      }
    }
  }

  /** After a side's loop, a price no update mentions is as it was. */
  lemma {:induction false} SideRunUntouched(side: Side, preKeys: set<real>, start: Book,
                                            ups: seq<Level>, index: int, maxDepth: int, p: real)
    requires forall i :: 0 <= i < |ups| ==> ups[i].price != p
    ensures var m := SideRun(side, preKeys, start, ups, index, maxDepth).book.Levels(side);
      && (p in m <==> p in start.Levels(side))
      && (p in m ==> m[p] == start.Levels(side)[p])
    decreases |ups|
  {
    if ups != [] {
      var n := |ups| - 1;
      var init := ups[..n];
      forall i | 0 <= i < |init| ensures init[i].price != p {
        assert init[i] == ups[i];
      }
      SideRunUntouched(side, preKeys, start, init, index, maxDepth, p);
      var m0 := SideRun(side, preKeys, start, init, index, maxDepth).book.Levels(side);
      var m := SideRun(side, preKeys, start, ups, index, maxDepth).book.Levels(side);
      assert m == Upsert(m0, ups[n].price, ups[n].volume);
    }
  }

  /** The book a side's loop leaves does not depend on the depth gate. */
  lemma {:induction false} SideRunBookIgnoresGate(side: Side, preKeys: set<real>, start: Book,
                                                  ups: seq<Level>, index: int, d1: int, d2: int)
    ensures SideRun(side, preKeys, start, ups, index, d1).book
         == SideRun(side, preKeys, start, ups, index, d2).book
    decreases |ups|
  {
    if ups != [] {
      SideRunBookIgnoresGate(side, preKeys, start, ups[..|ups| - 1], index, d1, d2);
    }
  }

  /** The book after a delta is the same whatever the depth gate: every
      update mutates the book. */
  lemma DeltaBookIgnoresGate(book: Book, askUps: seq<Level>, bidUps: seq<Level>,
                             index: int, d1: int, d2: int)
    ensures ApplyDelta(book, askUps, bidUps, index, d1).book
         == ApplyDelta(book, askUps, bidUps, index, d2).book
  {
    SideRunBookIgnoresGate(Ask, book.asks.Keys, book, askUps, index, d1, d2);
    var a := SideRun(Ask, book.asks.Keys, book, askUps, index, d1);
    SideRunBookIgnoresGate(Bid, book.bids.Keys, a.book, bidUps, index, d1, d2);
  }

  /** After a whole delta, on each side an updated price holds the volume
      of its last update on that side, and is absent if that volume was 0,
      whatever the depth gate let through. */
  lemma DeltaLastUpdateWins(book: Book, askUps: seq<Level>, bidUps: seq<Level>,
                            index: int, maxDepth: int, side: Side)
    ensures var m := ApplyDelta(book, askUps, bidUps, index, maxDepth).book.Levels(side);
            var ups := if side == Ask then askUps else bidUps;
      forall i :: (0 <= i < |ups| && forall j :: i < j < |ups| ==> ups[j].price != ups[i].price)
        ==> (ups[i].volume == 0.0 ==> ups[i].price !in m)
            && (ups[i].volume != 0.0 ==> ups[i].price in m && m[ups[i].price] == ups[i].volume)
  {
    var a := SideRun(Ask, book.asks.Keys, book, askUps, index, maxDepth);
    SideRunLastUpdateWins(Ask, book.asks.Keys, book, askUps, index, maxDepth);
    SideRunLastUpdateWins(Bid, book.bids.Keys, a.book, bidUps, index, maxDepth);
  }

  /** After a whole delta, a price that no update of its side mentions keeps
      its level (present with the same volume, or absent). */
  lemma DeltaUntouched(book: Book, askUps: seq<Level>, bidUps: seq<Level>,
                       index: int, maxDepth: int, side: Side, p: real)
    requires var ups := if side == Ask then askUps else bidUps;
      forall i :: 0 <= i < |ups| ==> ups[i].price != p
    ensures var m := ApplyDelta(book, askUps, bidUps, index, maxDepth).book.Levels(side);
      && (p in m <==> p in book.Levels(side))
      && (p in m ==> m[p] == book.Levels(side)[p])
  {
    var a := SideRun(Ask, book.asks.Keys, book, askUps, index, maxDepth);
    if side == Ask {
      SideRunUntouched(Ask, book.asks.Keys, book, askUps, index, maxDepth, p);
    } else {
      SideRunUntouched(Bid, book.bids.Keys, a.book, bidUps, index, maxDepth, p);
    }
  }
}
