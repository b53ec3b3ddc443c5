/** The two-sided price -> volume book, its sorted views, the depth (rank)
    of a price on one side, the best prices and the mid price. */
module OrderBook {

  datatype Option<T> = None | Some(value: T)

  datatype Side = Ask | Bid

  /** One [price, volume] pair of a snapshot or a delta. */
  datatype Level = Level(price: real, volume: real)

  /** The mid price; Invalid stands for the NaN the source returns
      when one side of the book is empty. */
  datatype MidPrice = Invalid | Valid(value: real)

  /** The two price -> volume maps. */
  datatype Book = Book(asks: map<real, real>, bids: map<real, real>) {

    function Levels(side: Side): map<real, real> {
      if side == Ask then asks else bids
    }

    function WithLevels(side: Side, m: map<real, real>): (b: Book)
      ensures b.Levels(side) == m
      ensures b.Levels(Other(side)) == Levels(Other(side))
    {
      if side == Ask then Book(m, bids) else Book(asks, m)
    }

    function Mid(): MidPrice {
      MidOf(asks, bids)
    }
  }

  function Other(side: Side): Side {
    if side == Ask then Bid else Ask
  }

  /** p ranks strictly ahead of q on this side: lower asks, higher bids. */
  predicate Better(side: Side, p: real, q: real) {
    if side == Ask then p < q else p > q
  }

  /** The depth scan stops at the first listed price p that the queried
      price has reached: p >= price for asks, p <= price for bids. */
  predicate Reaches(side: Side, p: real, price: real) {
    if side == Ask then p >= price else p <= price
  }

  /** The volume stored at `price`, or 0 when the price is absent. */
  function Get(m: map<real, real>, price: real): real {
    if price in m then m[price] else 0.0
  }

  /** One delta update of a level: volume 0 removes it, otherwise it is set. */
  function Upsert(m: map<real, real>, price: real, volume: real): (r: map<real, real>)
    ensures volume == 0.0 ==> price !in r
    ensures volume != 0.0 ==> price in r && r[price] == volume
    ensures forall p :: p != price ==> (p in r <==> p in m)
    ensures forall p :: p != price && p in m ==> r[p] == m[p]
  {
    if volume == 0.0 then m - {price} else m[price := volume]
  }

  /** The map a snapshot builds from its pairs (a dict comprehension). */
  function BuildLevels(pairs: seq<Level>): map<real, real>
    decreases |pairs|
  {
    if pairs == [] then map[]
    else BuildLevels(pairs[..|pairs| - 1])[pairs[|pairs| - 1].price := pairs[|pairs| - 1].volume]
  }

  /** Every listed price is a key, the last pair of a price gives its
      volume (zero volumes included) and nothing else is a key. */
  lemma {:induction false} BuildLevelsLastWins(pairs: seq<Level>)
    ensures forall i :: 0 <= i < |pairs| ==> pairs[i].price in BuildLevels(pairs)
    ensures forall p :: p in BuildLevels(pairs) ==> exists i :: 0 <= i < |pairs| && pairs[i].price == p
    ensures forall i :: (0 <= i < |pairs| && forall j :: i < j < |pairs| ==> pairs[j].price != pairs[i].price)
                          ==> BuildLevels(pairs)[pairs[i].price] == pairs[i].volume
    decreases |pairs|
  {
    if pairs != [] {
      var n := |pairs| - 1;
      var init := pairs[..n];
      BuildLevelsLastWins(init);
      var m0 := BuildLevels(init);
      var m := BuildLevels(pairs);
      assert m == m0[pairs[n].price := pairs[n].volume];
      forall p | p in m
        ensures exists i :: 0 <= i < |pairs| && pairs[i].price == p
      {
        if p != pairs[n].price {
          var i :| 0 <= i < |init| && init[i].price == p;
          assert pairs[i].price == p;
        }
      }
      forall i | 0 <= i < |pairs| && (forall j :: i < j < |pairs| ==> pairs[j].price != pairs[i].price)
        ensures m[pairs[i].price] == pairs[i].volume
      {
        if i < n {
          assert init[i] == pairs[i];
          forall j | i < j < |init| ensures init[j].price != init[i].price {
            assert init[j] == pairs[j];
          }
        }
      }
      forall i | 0 <= i < n ensures pairs[i].price in m {
        assert init[i] == pairs[i];
      }
    }
  }

  /** Strictly in the side's order: ascending for asks, descending for bids. */
  ghost predicate Ordered(side: Side, s: seq<real>) {
    forall i, j :: 0 <= i < j < |s| ==> Better(side, s[i], s[j])
  }

  /** s is the side's sorted view of exactly the keys `keys`. */
  ghost predicate SortedView(s: seq<real>, side: Side, keys: set<real>) {
    Ordered(side, s) && (forall p :: p in s <==> p in keys)
  }

  function Elems(s: seq<real>): set<real> {
    set p | p in s
  }

  /** The rank the linear scan returns: the index of the first listed price
      the queried price reaches, or the length of the list if none does. */
  function Depth(prices: seq<real>, side: Side, price: real): (d: nat)
    ensures d <= |prices|
    ensures forall i :: 0 <= i < d ==> !Reaches(side, prices[i], price)
    ensures d < |prices| ==> Reaches(side, prices[d], price)
    decreases |prices|
  {
    if prices == [] then 0
    else if Reaches(side, prices[0], price) then 0
    else 1 + Depth(prices[1..], side, price)
  }

  /** The prices of `keys` strictly better than `price` on this side. */
  function BetterSet(keys: set<real>, side: Side, price: real): set<real> {
    set p | p in keys && Better(side, p, price)
  }

  /** How many levels are strictly better than `price`. */
  function BetterCount(keys: set<real>, side: Side, price: real): nat {
    |BetterSet(keys, side, price)|
  }

  lemma {:induction false} OrderedCard(side: Side, s: seq<real>)
    requires Ordered(side, s)
    ensures |Elems(s)| == |s|
    decreases |s|
  {
    if s != [] {
      var t := s[1..];
      assert Ordered(side, t);
      OrderedCard(side, t);
      assert Elems(s) == {s[0]} + Elems(t);
      forall k | 0 <= k < |t| ensures t[k] != s[0] {
        assert Better(side, s[0], s[k + 1]);
      }
    }
  }

  /** Ranked against a sorted view of exactly the side's keys, the depth of
      any price is the number of levels strictly better than it. */
  lemma DepthIsBetterCount(prices: seq<real>, side: Side, keys: set<real>, price: real)
    requires SortedView(prices, side, keys)
    ensures Depth(prices, side, price) == BetterCount(keys, side, price)
  {
    var d := Depth(prices, side, price);
    var before := prices[..d];
    assert Ordered(side, before);
    OrderedCard(side, before);
    forall k | d <= k < |prices|
      ensures !Better(side, prices[k], price)
    {
      assert k == d || Better(side, prices[d], prices[k]);
    }
    forall p | p in BetterSet(keys, side, price)
      ensures p in Elems(before)
    {
      var k :| 0 <= k < |prices| && prices[k] == p;
      assert before[k] == p;
    }
    forall p | p in Elems(before)
      ensures p in BetterSet(keys, side, price)
    {
      var k :| 0 <= k < |before| && before[k] == p;
      assert !Reaches(side, prices[k], price);
    }
    assert BetterSet(keys, side, price) == Elems(before);
  }

  /** p is a best price of `keys`: no key ranks strictly ahead of it. */
  ghost predicate IsBest(keys: set<real>, side: Side, p: real) {
    p in keys && forall q :: q in keys ==> !Better(side, q, p)
  }

  lemma HasElement(keys: set<real>)
    requires keys != {}
    ensures exists x :: x in keys
  {
    if forall x :: x !in keys {
      assert false;
    }
  }

  lemma {:induction false} BestExists(keys: set<real>, side: Side)
    requires keys != {}
    ensures exists p :: IsBest(keys, side, p)
    decreases keys
  {
    HasElement(keys);
    var x :| x in keys;
    if keys != {x} {
      var rest := keys - {x};
      BestExists(rest, side);
      var p :| IsBest(rest, side, p);
      if Better(side, x, p) {
        forall q | q in keys ensures !Better(side, q, x) {
          if q != x {
            assert q in rest;
          }
        }
        assert IsBest(keys, side, x);
      } else {
        assert IsBest(keys, side, p);
      }
    } else {
      assert IsBest(keys, side, x);
    }
  }

  /** max(bids.keys()) for bids, min(asks.keys()) for asks. */
  function BestPrice(keys: set<real>, side: Side): (p: real)
    requires keys != {}
    ensures IsBest(keys, side, p)
  {
    BestExists(keys, side);
    var p :| p in keys && forall q :: q in keys ==> !Better(side, q, p);
    p
  }

  /** The best level of a side has depth 0. */
  lemma BestHasDepthZero(keys: set<real>, side: Side)
    requires keys != {}
    ensures BetterCount(keys, side, BestPrice(keys, side)) == 0
  {
    var b := BestPrice(keys, side);
    assert BetterSet(keys, side, b) == {};
  }

  /** The mid price: invalid when either side is empty, otherwise the
      average of the highest bid and the lowest ask. */
  function MidOf(asks: map<real, real>, bids: map<real, real>): (m: MidPrice)
    ensures m.Valid? <==> asks != map[] && bids != map[]
    ensures m.Valid? ==> forall a, b :: IsBest(asks.Keys, Ask, a) && IsBest(bids.Keys, Bid, b)
                           ==> m.value == (b + a) / 2.0
  {
    if bids == map[] || asks == map[] then Invalid
    else
      assert bids.Keys != {} && asks.Keys != {};
      Valid((BestPrice(bids.Keys, Bid) + BestPrice(asks.Keys, Ask)) / 2.0)
  }

  /** sorted(keys) for asks, sorted(keys, reverse=True) for bids: repeatedly
      takes the best remaining key. */
  method SortKeys(keys: set<real>, side: Side) returns (s: seq<real>)
    ensures SortedView(s, side, keys)
  {
    var rest := keys;
    s := [];
    while rest != {}
      invariant rest <= keys
      invariant Ordered(side, s)
      invariant forall p :: p in s <==> p in keys && p !in rest
      invariant forall i, q :: 0 <= i < |s| && q in rest ==> Better(side, s[i], q)
      decreases |rest|
    {
      var b := BestPrice(rest, side);
      s := s + [b];
      rest := rest - {b};
    }
  }
}
