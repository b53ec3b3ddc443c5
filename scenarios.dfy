/** Concrete replays: a snapshot followed by deltas, showing the exact
    fields of each event, the depth ranked against the book before the
    delta and the mid price read from the running book. */
module Scenarios {
  import opened OrderBook
  import opened Events

  /** The book of the snapshot asks=[[101,5],[102,5]], bids=[[100,5],[99,5]]. */
  function SnapshotBook(): Book {
    Book(BuildLevels([Level(101.0, 5.0), Level(102.0, 5.0)]),
         BuildLevels([Level(100.0, 5.0), Level(99.0, 5.0)]))
  }

  lemma TwoLevels(a: Level, b: Level)
    ensures BuildLevels([a, b]) == map[a.price := a.volume][b.price := b.volume]
  {
    assert [a, b][..1] == [a];
    assert [a][..0] == [];
    assert BuildLevels([a]) == map[][a.price := a.volume];
    assert BuildLevels([a, b]) == BuildLevels([a])[b.price := b.volume];
  }

  lemma SnapshotBookIs()
    ensures SnapshotBook() == Book(map[101.0 := 5.0, 102.0 := 5.0], map[100.0 := 5.0, 99.0 := 5.0])
  {
    TwoLevels(Level(101.0, 5.0), Level(102.0, 5.0));
    TwoLevels(Level(100.0, 5.0), Level(99.0, 5.0));
  }

  lemma MidOfTwoLevels(a1: real, va1: real, a2: real, va2: real, b1: real, vb1: real, b2: real, vb2: real)
    requires a1 < a2 && b2 < b1
    ensures MidOf(map[a1 := va1, a2 := va2], map[b1 := vb1, b2 := vb2]) == Valid((b1 + a1) / 2.0)
  {
    var asks := map[a1 := va1, a2 := va2];
    var bids := map[b1 := vb1, b2 := vb2];
    assert IsBest(asks.Keys, Ask, a1);
    assert IsBest(bids.Keys, Bid, b1);
  }

  /** The snapshot's mid is (100 + 101) / 2. */
  lemma SnapshotMid()
    ensures SnapshotBook().Mid() == Valid(100.5)
  {
    SnapshotBookIs();
    MidOfTwoLevels(101.0, 5.0, 102.0, 5.0, 100.0, 5.0, 99.0, 5.0);
  }

  /** Removing the best ask: one market buy of the whole level at depth 0,
      normalised -1, whose mid is read before the level is removed. */
  lemma RemoveBestAsk()
    ensures ApplyDelta(SnapshotBook(), [Level(101.0, 0.0)], [], 7, 50)
         == Outcome(Book(map[102.0 := 5.0], map[100.0 := 5.0, 99.0 := 5.0]),
                    [LobEvent(MarketBuy, 101.0, 5.0, 0, 7, Valid(100.5), 5.0, -1.0)])
  {
    SnapshotBookIs();
    SnapshotMid();
    var book := SnapshotBook();
    var ups := [Level(101.0, 0.0)];
    assert ups[..0] == [];
    assert BetterSet(book.asks.Keys, Ask, 101.0) == {};
    assert map[101.0 := 5.0, 102.0 := 5.0] - {101.0} == map[102.0 := 5.0];
    var none: seq<Level> := [];
    assert none[..0] == [];
  }

  /** Then shrinking the best bid from 5 to 3: a cancellation of 2 at
      depth 0, normalised 2/5, with the mid of the book after the ask
      removal. */
  lemma ShrinkBestBid()
    ensures ApplyDelta(Book(map[102.0 := 5.0], map[100.0 := 5.0, 99.0 := 5.0]), [], [Level(100.0, 3.0)], 8, 50)
         == Outcome(Book(map[102.0 := 5.0], map[100.0 := 3.0, 99.0 := 5.0]),
                    [LobEvent(BuyLimitCanceled, 100.0, 2.0, 0, 8, Valid(101.0), 5.0, 0.4)])
  {
    var book := Book(map[102.0 := 5.0], map[100.0 := 5.0, 99.0 := 5.0]);
    var ups := [Level(100.0, 3.0)];
    assert ups[..0] == [];
    var none: seq<Level> := [];
    assert none[..0] == [];
    assert BetterSet(book.bids.Keys, Bid, 100.0) == {};
    assert IsBest(book.asks.Keys, Ask, 102.0);
    assert IsBest(book.bids.Keys, Bid, 100.0);
    assert book.Mid() == Valid(101.0);
    assert map[100.0 := 5.0, 99.0 := 5.0][100.0 := 3.0] == map[100.0 := 3.0, 99.0 := 5.0];
  }

  /** The first step of the two-update delta below: 101 removed. */
  lemma FirstOfTwo(maxDepth: int)
    requires maxDepth > 0
    ensures SideRun(Ask, SnapshotBook().asks.Keys, SnapshotBook(),
                    [Level(101.0, 0.0), Level(102.0, 7.0)][..1], 3, maxDepth)
         == Outcome(Book(map[102.0 := 5.0], map[100.0 := 5.0, 99.0 := 5.0]),
                    [LobEvent(MarketBuy, 101.0, 5.0, 0, 3, Valid(100.5), 5.0, -1.0)])
  {
    SnapshotBookIs();
    SnapshotMid();
    var book := SnapshotBook();
    var ups := [Level(101.0, 0.0), Level(102.0, 7.0)];
    assert ups[..1] == [Level(101.0, 0.0)];
    assert ups[..1][..0] == [];
    assert BetterSet(book.asks.Keys, Ask, 101.0) == {};
    assert map[101.0 := 5.0, 102.0 := 5.0] - {101.0} == map[102.0 := 5.0];
  }

  /** 102 after 101 was removed: ranked behind 101 in the book before the
      delta, with the mid and the previous volume of the running book. */
  lemma SecondOfTwo()
    ensures StepEvent(Ask, SnapshotBook().asks.Keys, Book(map[102.0 := 5.0], map[100.0 := 5.0, 99.0 := 5.0]),
                      Level(102.0, 7.0), 3, 50)
         == Some(LobEvent(SellLimitAdded, 102.0, 2.0, 1, 3, Valid(101.0), 5.0, 0.4))
  {
    SnapshotBookIs();
    var keys := SnapshotBook().asks.Keys;
    assert BetterSet(keys, Ask, 102.0) == {101.0};
    var live := Book(map[102.0 := 5.0], map[100.0 := 5.0, 99.0 := 5.0]);
    assert IsBest(live.asks.Keys, Ask, 102.0);
    assert IsBest(live.bids.Keys, Bid, 100.0);
    assert live.Mid() == Valid(101.0);
  }

  /** Two ask updates in one delta: the second is ranked against the book
      before the delta (depth 1, behind 101, although 101 is already gone),
      while its previous volume and mid come from the running book. */
  lemma TwoTimingViews()
    ensures ApplyDelta(SnapshotBook(), [Level(101.0, 0.0), Level(102.0, 7.0)], [], 3, 50).events
         == [LobEvent(MarketBuy, 101.0, 5.0, 0, 3, Valid(100.5), 5.0, -1.0),
             LobEvent(SellLimitAdded, 102.0, 2.0, 1, 3, Valid(101.0), 5.0, 0.4)]
  {
    var ups := [Level(101.0, 0.0), Level(102.0, 7.0)];
    FirstOfTwo(50);
    SecondOfTwo();
    SideRunStep(Ask, SnapshotBook().asks.Keys, SnapshotBook(), ups, 1, 3, 50,
                Book(map[102.0 := 5.0], map[100.0 := 5.0, 99.0 := 5.0]),
                [LobEvent(MarketBuy, 101.0, 5.0, 0, 3, Valid(100.5), 5.0, -1.0)],
                Some(LobEvent(SellLimitAdded, 102.0, 2.0, 1, 3, Valid(101.0), 5.0, 0.4)));
    assert ups[..2] == ups;
    var none: seq<Level> := [];
    assert none[..0] == [];
  }

  /** With a depth limit of 1 the second update emits nothing, yet its
      level is still updated. */
  lemma GateDropsButMutates()
    ensures var o := ApplyDelta(SnapshotBook(), [Level(101.0, 0.0), Level(102.0, 7.0)], [], 3, 1);
      && o.events == [LobEvent(MarketBuy, 101.0, 5.0, 0, 3, Valid(100.5), 5.0, -1.0)]
      && o.book.asks == map[102.0 := 7.0]
  {
    var ups := [Level(101.0, 0.0), Level(102.0, 7.0)];
    FirstOfTwo(1);
    SnapshotBookIs();
    var keys := SnapshotBook().asks.Keys;
    assert BetterSet(keys, Ask, 102.0) == {101.0};
    var live := Book(map[102.0 := 5.0], map[100.0 := 5.0, 99.0 := 5.0]);
    var e := StepEvent(Ask, keys, live, ups[1], 3, 1);
    assert e.None?;
    SideRunStep(Ask, keys, SnapshotBook(), ups, 1, 3, 1, live,
                [LobEvent(MarketBuy, 101.0, 5.0, 0, 3, Valid(100.5), 5.0, -1.0)], e);
    assert ups[..2] == ups;
    assert map[102.0 := 5.0][102.0 := 7.0] == map[102.0 := 7.0];
    var none: seq<Level> := [];
    assert none[..0] == [];
  }

  /** Removing an ask level that is not in the book still emits a market
      buy of volume 0, normalised 1.0, at its insertion depth (behind 101
      and 102). */
  lemma RemoveAbsentLevel()
    ensures StepEvent(Ask, SnapshotBook().asks.Keys, SnapshotBook(), Level(105.0, 0.0), 4, 50)
         == Some(LobEvent(MarketBuy, 105.0, 0.0, 2, 4, Valid(100.5), 0.0, 1.0))
  {
    SnapshotBookIs();
    SnapshotMid();
    var book := SnapshotBook();
    assert BetterSet(book.asks.Keys, Ask, 105.0) == {101.0, 102.0};
    assert |{101.0, 102.0}| == 2;
  }
}
