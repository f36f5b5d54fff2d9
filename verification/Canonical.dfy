/** The canonical listing of a book: levels ascending, oldest order first within a
    level. Snapshots and state hashes are written in this order. */
module Canonical {
  import opened Types
  import opened Config
  import opened Matching
  import opened Crossings
  import opened Invariants
  import opened Queues

  predicate OnLevel(cfg: BookConfig, o: Order, l: nat)
    requires cfg.Valid()
  {
    match cfg.PriceToIdx(o.price)
    case None => false
    case Some(i) => i == l
  }

  /** The orders of one level, in list order. */
  function AtLevel(cfg: BookConfig, xs: seq<Order>, l: nat): seq<Order>
    requires cfg.Valid()
  {
    if xs == [] then []
    else (if OnLevel(cfg, xs[0], l) then [xs[0]] else []) + AtLevel(cfg, xs[1..], l)
  }

  /** A group of higher levels, seen best first from side `s`. */
  function Above(s: Side, lower: seq<Order>, higher: seq<Order>): seq<Order> {
    if s.Bid? then higher + lower else lower + higher
  }

  /** The orders of the first `n` levels, level by level. */
  function Gathered(cfg: BookConfig, s: Side, xs: seq<Order>, n: nat): seq<Order>
    requires cfg.Valid()
  {
    if n == 0 then [] else Above(s, Gathered(cfg, s, xs, n - 1), AtLevel(cfg, xs, n - 1))
  }

  function Ascending(cfg: BookConfig, xs: seq<Order>): seq<Order>
    requires cfg.Valid()
  {
    Gathered(cfg, Ask, xs, cfg.numLevels)
  }

  /** Bids, then asks, each with levels ascending. */
  function Listing(cfg: BookConfig, b: Book): seq<Order>
    requires cfg.Valid()
  {
    Ascending(cfg, b.bids) + Ascending(cfg, b.asks)
  }

  lemma {:induction false} AtLevelAppend(cfg: BookConfig, xs: seq<Order>, ys: seq<Order>, l: nat)
    requires cfg.Valid()
    ensures AtLevel(cfg, xs + ys, l) == AtLevel(cfg, xs, l) + AtLevel(cfg, ys, l)
  {
    if xs == [] {
      assert xs + ys == ys;
    } else {
      assert (xs + ys)[1..] == xs[1..] + ys;
      AtLevelAppend(cfg, xs[1..], ys, l);
    }
  }

  lemma {:induction false} AtLevelNone(cfg: BookConfig, xs: seq<Order>, l: nat)
    requires cfg.Valid() && forall i :: 0 <= i < |xs| ==> !OnLevel(cfg, xs[i], l)
    ensures AtLevel(cfg, xs, l) == []
  {
    if xs != [] {
      AtLevelNone(cfg, xs[1..], l);
    }
  }

  lemma {:induction false} AtLevelAll(cfg: BookConfig, xs: seq<Order>, l: nat)
    requires cfg.Valid() && forall i :: 0 <= i < |xs| ==> OnLevel(cfg, xs[i], l)
    ensures AtLevel(cfg, xs, l) == xs
  {
    if xs != [] {
      AtLevelAll(cfg, xs[1..], l);
    }
  }

  lemma {:induction false} AtLevelMembers(cfg: BookConfig, xs: seq<Order>, l: nat)
    requires cfg.Valid()
    ensures forall o :: o in AtLevel(cfg, xs, l) ==> o in xs && OnLevel(cfg, o, l)
  {
    if xs != [] {
      AtLevelMembers(cfg, xs[1..], l);
    }
  }

  lemma {:induction false} GatheredMembers(cfg: BookConfig, s: Side, xs: seq<Order>, n: nat)
    requires cfg.Valid()
    ensures forall o :: o in Gathered(cfg, s, xs, n) ==>
              o in xs && cfg.PriceToIdx(o.price).Some? && cfg.PriceToIdx(o.price).value < n
  {
    if n > 0 {
      GatheredMembers(cfg, s, xs, n - 1);
      AtLevelMembers(cfg, xs, n - 1);
    }
  }

  /** In a sorted list the front order's level is no worse than any other. */
  lemma FrontLevel(cfg: BookConfig, s: Side, xs: seq<Order>, i: nat, l: nat)
    requires cfg.Valid() && OnGrid(cfg, s, xs) && Sorted(s, xs) && 0 < i < |xs| && OnLevel(cfg, xs[i], l)
    ensures var f := cfg.PriceToIdx(xs[0].price).value; if s.Bid? then l <= f else f <= l
  {
    cfg.GridMonotone(xs[0].price, xs[i].price);
    assert !Better(s, xs[i].price, xs[0].price);
  }

  lemma {:induction false} GatheredNone(cfg: BookConfig, s: Side, xs: seq<Order>, n: nat)
    requires cfg.Valid() && forall i, l :: 0 <= i < |xs| && 0 <= l < n ==> !OnLevel(cfg, xs[i], l)
    ensures Gathered(cfg, s, xs, n) == []
  {
    if n > 0 {
      GatheredNone(cfg, s, xs, n - 1);
      AtLevelNone(cfg, xs, n - 1);
    }
  }

  /** Nothing behind the front order is on a better level than it. */
  lemma NoneBetter(cfg: BookConfig, s: Side, xs: seq<Order>, f: nat)
    requires cfg.Valid() && OnGrid(cfg, s, xs) && Sorted(s, xs) && xs != [] && OnLevel(cfg, xs[0], f)
    ensures forall i, l :: 0 <= i < |xs| - 1 && (if s.Bid? then l > f else 0 <= l < f) ==> !OnLevel(cfg, xs[1..][i], l)
  {
    forall i, l | 0 <= i < |xs| - 1 && (if s.Bid? then l > f else 0 <= l < f) ensures !OnLevel(cfg, xs[1..][i], l) {
      if OnLevel(cfg, xs[i + 1], l) {
        FrontLevel(cfg, s, xs, i + 1, l);
      }
    }
  }

  lemma FrontOfLevels(s: Side, x: Order, f: nat, l: nat, low: seq<Order>, g: seq<Order>)
    requires s.Bid? && f < l ==> g == []
    requires s.Ask? && f == l ==> low == []
    ensures Above(s, (if f < l then [x] else []) + low, (if f == l then [x] else []) + g) ==
            (if f < l + 1 then [x] else []) + Above(s, low, g)
  {
    if f < l {
      assert s.Ask? ==> ([x] + low) + g == [x] + (low + g);
      assert s.Bid? ==> [] + ([x] + low) == [x] + ([] + low);
    } else if f == l {
      assert s.Bid? ==> ([x] + g) + low == [x] + (g + low);
    }
  }

  /** The front order heads what is gathered of a sorted list. */
  lemma {:induction false} GatheredFront(cfg: BookConfig, s: Side, xs: seq<Order>, n: nat, f: nat)
    requires cfg.Valid() && OnGrid(cfg, s, xs) && Sorted(s, xs) && xs != [] && OnLevel(cfg, xs[0], f)
    ensures Gathered(cfg, s, xs, n) == (if f < n then [xs[0]] else []) + Gathered(cfg, s, xs[1..], n)
  {
    hide OnGrid, Sorted, Above;
    if n > 0 {
      var l, ys := n - 1, xs[1..];
      GatheredFront(cfg, s, xs, l, f);
      assert AtLevel(cfg, xs, l) == (if f == l then [xs[0]] else []) + AtLevel(cfg, ys, l);
      assert && (s.Bid? && f < l ==> AtLevel(cfg, ys, l) == [])
             && (s.Ask? && f == l ==> Gathered(cfg, s, ys, l) == []) by {
        NoneBetter(cfg, s, xs, f);
        if s.Bid? && f < l {
          AtLevelNone(cfg, ys, l);
        }
        if s.Ask? && f == l {
          GatheredNone(cfg, s, ys, l);
        }
      }
      FrontOfLevels(s, xs[0], f, l, Gathered(cfg, s, ys, l), AtLevel(cfg, ys, l));
      hide AtLevel, OnLevel;
    }
  }

  /** A sorted list is its levels put together, best first. */
  lemma {:induction false} GatheredWhole(cfg: BookConfig, s: Side, xs: seq<Order>)
    requires cfg.Valid() && OnGrid(cfg, s, xs) && Sorted(s, xs)
    ensures Gathered(cfg, s, xs, cfg.numLevels) == xs
  {
    if xs == [] {
      GatheredNone(cfg, s, xs, cfg.numLevels);
    } else {
      var f := cfg.PriceToIdx(xs[0].price).value;
      GatheredWhole(cfg, s, xs[1..]);
      GatheredFront(cfg, s, xs, cfg.numLevels, f);
      cfg.GridExact(xs[0].price, f);
    }
  }

  lemma AboveAssoc(s: Side, a: seq<Order>, b: seq<Order>, c: seq<Order>)
    ensures Above(s, Above(s, a, b), c) == Above(s, a, Above(s, b, c))
  {
    if s.Bid? {
      assert c + (b + a) == (c + b) + a;
    } else {
      assert (a + b) + c == a + (b + c);
    }
  }

  /** Higher levels only add to one end. */
  lemma {:induction false} GatheredGrows(cfg: BookConfig, s: Side, xs: seq<Order>, n: nat, m: nat)
    returns (rest: seq<Order>)
    requires cfg.Valid() && n <= m
    ensures Gathered(cfg, s, xs, m) == Above(s, Gathered(cfg, s, xs, n), rest)
  {
    if n == m {
      rest := [];
    } else {
      var r := GatheredGrows(cfg, s, xs, n, m - 1);
      AboveAssoc(s, Gathered(cfg, s, xs, n), r, AtLevel(cfg, xs, m - 1));
      rest := Above(s, r, AtLevel(cfg, xs, m - 1));
      hide Above, AtLevel;
    }
  }

  // What the listing is, by prices alone.

  /** The orders at one price, in list order. */
  function AtPrice(xs: seq<Order>, p: i64): seq<Order> {
    if xs == [] then [] else (if xs[0].price == p then [xs[0]] else []) + AtPrice(xs[1..], p)
  }

  lemma {:induction false} AtPriceAppend(xs: seq<Order>, ys: seq<Order>, p: i64)
    ensures AtPrice(xs + ys, p) == AtPrice(xs, p) + AtPrice(ys, p)
  {
    if xs == [] {
      assert xs + ys == ys;
    } else {
      assert (xs + ys)[1..] == xs[1..] + ys && (xs + ys)[0] == xs[0];
      AtPriceAppend(xs[1..], ys, p);
      var first := if xs[0].price == p then [xs[0]] else [];
      assert AtPrice(xs + ys, p) == first + (AtPrice(xs[1..], p) + AtPrice(ys, p));
      hide AtPrice;
    }
  }

  lemma {:induction false} LevelAtPrice(cfg: BookConfig, xs: seq<Order>, l: nat, p: i64)
    requires cfg.Valid()
    ensures AtPrice(AtLevel(cfg, xs, l), p) ==
            if cfg.PriceToIdx(p).Some? && cfg.PriceToIdx(p).value == l then AtPrice(xs, p) else []
  {
    if xs != [] {
      var first := if OnLevel(cfg, xs[0], l) then [xs[0]] else [];
      LevelAtPrice(cfg, xs[1..], l, p);
      AtPriceAppend(first, AtLevel(cfg, xs[1..], l), p);
      assert first != [] ==> first[1..] == [];
    }
  }

  lemma {:induction false} GatheredAtPrice(cfg: BookConfig, xs: seq<Order>, n: nat, p: i64)
    requires cfg.Valid()
    ensures AtPrice(Gathered(cfg, Ask, xs, n), p) ==
            if cfg.PriceToIdx(p).Some? && cfg.PriceToIdx(p).value < n then AtPrice(xs, p) else []
  {
    if n > 0 {
      GatheredAtPrice(cfg, xs, n - 1, p);
      LevelAtPrice(cfg, xs, n - 1, p);
      AtPriceAppend(Gathered(cfg, Ask, xs, n - 1), AtLevel(cfg, xs, n - 1), p);
      hide AtPrice, AtLevel, BookConfig.PriceToIdx;
    }
  }

  lemma {:induction false} NoneAtPrice(xs: seq<Order>, p: i64)
    requires forall i :: 0 <= i < |xs| ==> xs[i].price != p
    ensures AtPrice(xs, p) == []
  {
    if xs != [] {
      NoneAtPrice(xs[1..], p);
    }
  }

  predicate Rising(xs: seq<Order>) {
    forall i, j :: 0 <= i < j < |xs| ==> xs[i].price <= xs[j].price
  }

  lemma RisesAppend(a: seq<Order>, b: seq<Order>)
    requires Rising(a) && Rising(b) && forall x, y :: x in a && y in b ==> x.price <= y.price
    ensures Rising(a + b)
  {
    var whole := a + b;
    forall i, j | 0 <= i < j < |whole| ensures whole[i].price <= whole[j].price {
      if i < |a| <= j {
        assert a[i] in a && b[j - |a|] in b;
      }
    }
  }

  lemma LevelRises(cfg: BookConfig, xs: seq<Order>, l: nat)
    requires cfg.Valid()
    ensures Rising(AtLevel(cfg, xs, l))
  {
    AtLevelMembers(cfg, xs, l);
    var ys := AtLevel(cfg, xs, l);
    hide AtLevel;
    forall i, j | 0 <= i < j < |ys| ensures ys[i].price <= ys[j].price {
      assert ys[i] in ys && ys[j] in ys;
      cfg.GridMonotone(ys[i].price, ys[j].price);
    }
  }

  lemma GatheredBelow(cfg: BookConfig, xs: seq<Order>, n: nat)
    requires cfg.Valid()
    ensures forall x, y :: x in Gathered(cfg, Ask, xs, n) && y in AtLevel(cfg, xs, n) ==> x.price <= y.price
  {
    GatheredMembers(cfg, Ask, xs, n);
    AtLevelMembers(cfg, xs, n);
    hide AtLevel, Gathered, BookConfig.PriceToIdx;
    forall x, y | x in Gathered(cfg, Ask, xs, n) && y in AtLevel(cfg, xs, n) ensures x.price <= y.price {
      cfg.GridMonotone(x.price, y.price);
    }
  }

  lemma {:induction false} GatheredRises(cfg: BookConfig, xs: seq<Order>, n: nat)
    requires cfg.Valid()
    ensures Rising(Gathered(cfg, Ask, xs, n))
  {
    hide AtLevel, Rising;
    if n == 0 {
      NoneRises();
    } else {
      GatheredRises(cfg, xs, n - 1);
      GatheredBelow(cfg, xs, n - 1);
      LevelRises(cfg, xs, n - 1);
      RisesAppend(Gathered(cfg, Ask, xs, n - 1), AtLevel(cfg, xs, n - 1));
    }
  }

  lemma NoneRises()
    ensures Rising([])
  {}

  lemma SideListed(cfg: BookConfig, s: Side, xs: seq<Order>, p: i64)
    requires cfg.Valid() && OnGrid(cfg, s, xs)
    ensures Rising(Ascending(cfg, xs)) && AtPrice(Ascending(cfg, xs), p) == AtPrice(xs, p)
  {
    GatheredRises(cfg, xs, cfg.numLevels);
    GatheredAtPrice(cfg, xs, cfg.numLevels, p);
    if cfg.PriceToIdx(p).None? {
      NoneAtPrice(xs, p);
    }
  }

  /** The listing is the bids and then the asks; each side rises in price, and at every
      price keeps the order of the book. */
  lemma ListingOrdered(cfg: BookConfig, b: Book) returns (bids: seq<Order>, asks: seq<Order>)
    requires cfg.Valid() && Tidy(cfg, b)
    ensures Listing(cfg, b) == bids + asks && Rising(bids) && Rising(asks)
    ensures forall p :: AtPrice(bids, p) == AtPrice(b.bids, p) && AtPrice(asks, p) == AtPrice(b.asks, p)
  {
    bids, asks := Ascending(cfg, b.bids), Ascending(cfg, b.asks);
    SideListed(cfg, Bid, b.bids, 0);
    SideListed(cfg, Ask, b.asks, 0);
    forall p ensures AtPrice(bids, p) == AtPrice(b.bids, p) && AtPrice(asks, p) == AtPrice(b.asks, p) {
      SideListed(cfg, Bid, b.bids, p);
      SideListed(cfg, Ask, b.asks, p);
    }
  }

  // Rebuilding a book from a list.

  /** Admit one order without matching, or refuse it. */
  function Admit(cfg: BookConfig, b: Book, o: Order): Result<Book>
    requires cfg.Valid()
  {
    if cfg.PriceToIdx(o.price).None? then Err("snapshot order price off the grid")
    else if o.remaining == 0 then Err("snapshot contains a zero-qty order")
    else if Find(b.All(), o.id).Some? then Err("snapshot contains a duplicate order id")
    else if |b.All()| >= cfg.maxLive then Err("snapshot exceeds book capacity")
    else Ok(b.With(o.side, Insert(o.side, b.On(o.side), o)))
  }

  /** Admit a list in order; the first refusal is final. */
  function Admits(cfg: BookConfig, b: Book, os: seq<Order>): Result<Book>
    requires cfg.Valid()
  {
    if os == [] then Ok(b)
    else
      match Admits(cfg, b, os[..|os| - 1])
      case Err(e) => Err(e)
      case Ok(c) => Admit(cfg, c, os[|os| - 1])
  }

  lemma {:induction false} AdmitsAppend(cfg: BookConfig, b: Book, p: seq<Order>, q: seq<Order>)
    requires cfg.Valid()
    ensures Admits(cfg, b, p + q) ==
            match Admits(cfg, b, p) { case Err(e) => Err(e) case Ok(c) => Admits(cfg, c, q) }
  {
    if q == [] {
      assert p + q == p;
    } else {
      var n := |q| - 1;
      AdmitsAppend(cfg, b, p, q[..n]);
      assert (p + q)[..|p| + n] == p + q[..n];
    }
  }

  lemma AdmitsNext(cfg: BookConfig, b: Book, os: seq<Order>, i: nat)
    requires cfg.Valid() && i < |os|
    ensures Admits(cfg, b, os[..i + 1]) ==
            match Admits(cfg, b, os[..i]) { case Err(e) => Err(e) case Ok(c) => Admit(cfg, c, os[i]) }
  {
    assert os[..i + 1][..i] == os[..i];
  }

  /** After a refusal the rest of the list makes no difference. */
  lemma AdmitsRefused(cfg: BookConfig, b: Book, os: seq<Order>, i: nat)
    requires cfg.Valid() && i <= |os| && Admits(cfg, b, os[..i]).Err?
    ensures Admits(cfg, b, os) == Admits(cfg, b, os[..i])
  {
    AdmitsAppend(cfg, b, os[..i], os[i..]);
    assert os[..i] + os[i..] == os;
  }

  /** What a list must satisfy to be admitted on an empty book. */
  predicate Admissible(cfg: BookConfig, os: seq<Order>)
    requires cfg.Valid()
  {
    && (forall i :: 0 <= i < |os| ==> cfg.PriceToIdx(os[i].price).Some?)
    && Positive(os) && Distinct(os) && |os| <= cfg.maxLive
  }

  lemma Snoc(xs: seq<Order>, o: Order)
    ensures Ids(xs + [o]) == Ids(xs) + {o.id}
  {
    var ys := xs + [o];
    forall i | 0 <= i < |xs| ensures xs[i].id in Ids(ys) {
      assert xs[i] == ys[i];
    }
    assert ys[|xs|] == o;
  }

  /** The prices listed for one side. */
  function SidePrices(s: Side, os: seq<Order>): set<i64> {
    set i | 0 <= i < |os| && os[i].side == s :: os[i].price
  }

  lemma SnocPrices(s: Side, os: seq<Order>, o: Order)
    ensures SidePrices(s, os + [o]) == SidePrices(s, os) + (if o.side == s then {o.price} else {})
  {
    var ys := os + [o];
    forall i | 0 <= i < |os| ensures os[i] == ys[i] {}
    assert ys[|os|] == o;
  }

  lemma SnocAdmissible(cfg: BookConfig, os: seq<Order>, o: Order)
    requires cfg.Valid()
    ensures Admissible(cfg, os + [o]) <==>
            && Admissible(cfg, os) && cfg.PriceToIdx(o.price).Some? && o.remaining > 0 && o.id !in Ids(os)
            && |os| < cfg.maxLive
  {
    var ys := os + [o];
    assert ys[..|os|] == os && ys[|os|] == o;
    forall i | 0 <= i < |os| ensures ys[i] == os[i] {}
    if Admissible(cfg, ys) {
      forall i | 0 <= i < |os| ensures os[i].id != o.id {
        assert ys[i].id != ys[|os|].id;
      }
    }
  }

  /** One admitted order is one more order held. */
  lemma AdmitAdds(cfg: BookConfig, b: Book, o: Order)
    requires cfg.Valid() && Admit(cfg, b, o).Ok?
    ensures multiset(Admit(cfg, b, o).value.All()) == multiset(b.All()) + multiset{o}
  {
    hide Insert, Find;
    InsertMultiset(o.side, b.On(o.side), o);
  }

  lemma AdmitOne(cfg: BookConfig, b: Book, o: Order)
    requires cfg.Valid() && Tidy(cfg, b)
    ensures Admit(cfg, b, o).Ok? <==>
            && cfg.PriceToIdx(o.price).Some? && o.remaining > 0
            && o.id !in Ids(b.bids) + Ids(b.asks) && |b.bids| + |b.asks| < cfg.maxLive
    ensures Admit(cfg, b, o).Ok? ==>
              var c := Admit(cfg, b, o).value;
              && Tidy(cfg, c)
              && Ids(c.bids) + Ids(c.asks) == Ids(b.bids) + Ids(b.asks) + {o.id}
              && |c.bids| + |c.asks| == |b.bids| + |b.asks| + 1
              && Prices(c.On(o.side)) == Prices(b.On(o.side)) + {o.price}
              && c.On(o.side.Opposite()) == b.On(o.side.Opposite())
  {
    AbsentFrom(b, o.id);
    if Admit(cfg, b, o).Ok? {
      RestKeeps(cfg, b, o);
      InsertAdds(o.side, b.On(o.side), o);
      InsertAt(o.side, b.On(o.side), o);
    }
  }

  /** A list is admitted exactly when every price is on the grid, every quantity is
      positive, no identifier repeats and the capacity suffices; the book then holds
      what was listed. Nothing else is checked. */
  lemma {:induction false} AdmitsIff(cfg: BookConfig, os: seq<Order>)
    requires cfg.Valid()
    ensures Admits(cfg, EMPTY, os).Ok? <==> Admissible(cfg, os)
    ensures Admits(cfg, EMPTY, os).Ok? ==>
              var b := Admits(cfg, EMPTY, os).value;
              && Tidy(cfg, b) && multiset(b.All()) == multiset(os)
              && Ids(b.bids) + Ids(b.asks) == Ids(os) && |b.bids| + |b.asks| == |os|
              && forall s :: Prices(b.On(s)) == SidePrices(s, os)
  {
    if os != [] {
      var n := |os| - 1;
      var front, o := os[..n], os[n];
      assert os == front + [o];
      AdmitsIff(cfg, front);
      SnocAdmissible(cfg, front, o);
      hide Admissible, Tidy, Admit, Ids, Prices, SidePrices;
      if Admits(cfg, EMPTY, front).Ok? {
        var b := Admits(cfg, EMPTY, front).value;
        AdmitOne(cfg, b, o);
        if Admit(cfg, b, o).Ok? {
          AdmitAdds(cfg, b, o);
        }
        Snoc(front, o);
        forall s ensures SidePrices(s, os) == SidePrices(s, front) + if o.side == s then {o.price} else {} {
          SnocPrices(s, front, o);
        }
      }
    }
  }

  /** Some order of the list has this identifier. */
  predicate Lists(os: seq<Order>, id: u64) {
    exists j :: 0 <= j < |os| && os[j].id == id
  }

  /** Why an order behind an admissible list is refused. */
  lemma AdmitWhy(cfg: BookConfig, os: seq<Order>, o: Order)
    requires cfg.Valid() && Admissible(cfg, os)
    ensures Admits(cfg, EMPTY, os).Ok?
    ensures Admit(cfg, Admits(cfg, EMPTY, os).value, o).Err? ==>
              Admit(cfg, Admits(cfg, EMPTY, os).value, o) ==
              if cfg.PriceToIdx(o.price).None? then Err("snapshot order price off the grid")
              else if o.remaining == 0 then Err("snapshot contains a zero-qty order")
              else if Lists(os, o.id) then Err("snapshot contains a duplicate order id")
              else Err("snapshot exceeds book capacity")
  {
    AdmitsIff(cfg, os);
    var b := Admits(cfg, EMPTY, os).value;
    hide Admissible, Tidy, Admits, Find, Insert, BookConfig.PriceToIdx;
    AbsentFrom(b, o.id);
    assert Lists(os, o.id) <==> o.id in Ids(os);
    hide Ids, Lists;
  }

  /** A list that is not admitted is refused at its first order that does not fit, for the
      first reason that applies to it. */
  lemma {:induction false} AdmitsWhy(cfg: BookConfig, os: seq<Order>) returns (i: nat)
    requires cfg.Valid() && !Admissible(cfg, os)
    ensures i < |os| && Admissible(cfg, os[..i])
    ensures Admits(cfg, EMPTY, os) ==
            if cfg.PriceToIdx(os[i].price).None? then Err("snapshot order price off the grid")
            else if os[i].remaining == 0 then Err("snapshot contains a zero-qty order")
            else if Lists(os[..i], os[i].id) then Err("snapshot contains a duplicate order id")
            else Err("snapshot exceeds book capacity")
  {
    assert os != [];
    var n := |os| - 1;
    hide Admissible, Lists, Tidy, Admit, BookConfig.PriceToIdx, Ids, Prices, SidePrices;
    AdmitsIff(cfg, os);
    if !Admissible(cfg, os[..n]) {
      i := AdmitsWhy(cfg, os[..n]);
      assert os[..n][..i] == os[..i];
    } else {
      i := n;
      AdmitWhy(cfg, os[..n], os[n]);
    }
  }

  /** A rebuilt book is uncrossed exactly when every listed bid is below every listed
      ask: rebuilding itself does not look. */
  lemma AdmitsUncrossedIff(cfg: BookConfig, os: seq<Order>)
    requires cfg.Valid() && Admissible(cfg, os)
    ensures Admits(cfg, EMPTY, os).Ok?
    ensures Uncrossed(Admits(cfg, EMPTY, os).value) <==>
            forall i, j :: 0 <= i < |os| && 0 <= j < |os| && os[i].side == Bid && os[j].side == Ask ==>
              os[i].price < os[j].price
  {
    AdmitsIff(cfg, os);
    var b := Admits(cfg, EMPTY, os).value;
    assert Prices(b.On(Bid)) == SidePrices(Bid, os) && Prices(b.On(Ask)) == SidePrices(Ask, os);
    if Uncrossed(b) {
      forall i, j | 0 <= i < |os| && 0 <= j < |os| && os[i].side == Bid && os[j].side == Ask
        ensures os[i].price < os[j].price
      {
        assert os[i].price in SidePrices(Bid, os) && os[j].price in SidePrices(Ask, os);
      }
    }
  }

  /** One more order of level `n` behind those already there. */
  lemma AdmitAtLevel(cfg: BookConfig, s: Side, low: seq<Order>, g: seq<Order>, k: nat, n: nat)
    requires cfg.Valid() && k < |g| && forall i :: 0 <= i < |g| ==> OnLevel(cfg, g[i], n)
    requires forall o :: o in low ==> cfg.PriceToIdx(o.price).Some? && cfg.PriceToIdx(o.price).value < n
    ensures Insert(s, Above(s, low, g[..k]), g[k]) == Above(s, low, g[..k + 1])
  {
    var xs, o, p := Above(s, low, g[..k]), g[k], if s.Bid? then k else |low| + k;
    forall i | 0 <= i < |xs| ensures Better(s, o.price, xs[i].price) <==> i >= p {
      var j := if s.Bid? then i else i - |low|;
      if 0 <= j < k {
        assert xs[i] == g[j];
      } else {
        assert xs[i] == low[if s.Bid? then i - k else i];
        assert xs[i] in low;
      }
      cfg.GridMonotone(o.price, xs[i].price);
    }
    InsertBetween(s, xs, o, p);
    assert g[..k + 1] == g[..k] + [o];
    if s.Bid? {
      assert xs[..k] == g[..k] && xs[k..] == low;
    } else {
      assert xs[..|low| + k] == xs && xs[|low| + k..] == [];
    }
  }

  /** The orders of level `n` that are not yet in are new to the list. */
  lemma StillAbsent(s: Side, xs: seq<Order>, low: seq<Order>, g: seq<Order>, high: seq<Order>, k: nat)
    requires Distinct(xs) && xs == Above(s, Above(s, low, g), high) && k < |g|
    ensures g[k].id !in Ids(Above(s, low, g[..k]))
    ensures |Above(s, low, g[..k])| < |xs|
    ensures g[k] in xs
  {
    var ys, o := Above(s, low, g[..k]), g[k];
    var at := if s.Bid? then |high| + k else |low| + k;
    assert xs[at] == o;
    forall i | 0 <= i < |ys| ensures ys[i].id != o.id {
      var j := if s.Ask? then i else if i < k then |high| + i else |high| + i - k + |g|;
      assert ys[i] == xs[j];
      assert j != at;
    }
  }

  /** The list `xs`, to be rebuilt beside `other`. */
  predicate Rebuildable(cfg: BookConfig, s: Side, xs: seq<Order>, other: seq<Order>)
    requires cfg.Valid()
  {
    WfSide(cfg, s, xs) && Ids(xs) !! Ids(other) && |xs| + |other| <= cfg.maxLive
  }

  lemma NextIsNew(cfg: BookConfig, s: Side, xs: seq<Order>, n: nat, k: nat)
    requires cfg.Valid() && WfSide(cfg, s, xs) && n < cfg.numLevels && k < |AtLevel(cfg, xs, n)|
    ensures var ys := Above(s, Gathered(cfg, s, xs, n), AtLevel(cfg, xs, n)[..k]);
            && AtLevel(cfg, xs, n)[k] in xs && AtLevel(cfg, xs, n)[k].id !in Ids(ys) && |ys| < |xs|
  {
    var low, g := Gathered(cfg, s, xs, n), AtLevel(cfg, xs, n);
    assert Gathered(cfg, s, xs, n + 1) == Above(s, low, g);
    hide Gathered, AtLevel, Sorted, OnGrid, Above, Ids;
    GatheredWhole(cfg, s, xs);
    var high := GatheredGrows(cfg, s, xs, n + 1, cfg.numLevels);
    StillAbsent(s, xs, low, g, high, k);
  }

  lemma NextInserts(cfg: BookConfig, s: Side, xs: seq<Order>, n: nat, k: nat)
    requires cfg.Valid() && k < |AtLevel(cfg, xs, n)|
    ensures var low, g := Gathered(cfg, s, xs, n), AtLevel(cfg, xs, n);
            Insert(s, Above(s, low, g[..k]), g[k]) == Above(s, low, g[..k + 1])
  {
    hide Gathered, AtLevel, Insert, Above, OnLevel;
    var g := AtLevel(cfg, xs, n);
    AtLevelMembers(cfg, xs, n);
    forall i | 0 <= i < |g| ensures OnLevel(cfg, g[i], n) {
      assert g[i] in g;
    }
    GatheredMembers(cfg, s, xs, n);
    AdmitAtLevel(cfg, s, Gathered(cfg, s, xs, n), g, k, n);
  }

  lemma AdmitNextAtLevel(cfg: BookConfig, s: Side, b: Book, xs: seq<Order>, n: nat, k: nat)
    requires cfg.Valid() && Rebuildable(cfg, s, xs, b.On(s.Opposite())) && n < cfg.numLevels
    requires k < |AtLevel(cfg, xs, n)|
    requires b.On(s) == Above(s, Gathered(cfg, s, xs, n), AtLevel(cfg, xs, n)[..k])
    ensures Admit(cfg, b, AtLevel(cfg, xs, n)[k]) ==
            Ok(b.With(s, Above(s, Gathered(cfg, s, xs, n), AtLevel(cfg, xs, n)[..k + 1])))
  {
    hide Gathered, AtLevel, Sorted, Distinct, Above, Insert, Find, BookConfig.PriceToIdx;
    NextIsNew(cfg, s, xs, n, k);
    NextInserts(cfg, s, xs, n, k);
    var o := AtLevel(cfg, xs, n)[k];
    var i :| 0 <= i < |xs| && xs[i] == o;
    assert o.id in Ids(xs) && o.id !in Ids(b.On(s.Opposite()));
    AbsentFrom(b, o.id);
  }

  lemma {:induction false} AdmitsLevel(cfg: BookConfig, s: Side, b: Book, xs: seq<Order>, n: nat, k: nat)
    requires cfg.Valid() && Rebuildable(cfg, s, xs, b.On(s.Opposite())) && n < cfg.numLevels
    requires b.On(s) == Gathered(cfg, s, xs, n) && k <= |AtLevel(cfg, xs, n)|
    ensures Admits(cfg, b, AtLevel(cfg, xs, n)[..k]) ==
            Ok(b.With(s, Above(s, Gathered(cfg, s, xs, n), AtLevel(cfg, xs, n)[..k])))
  {
    hide Rebuildable, Admit, AtLevel, Gathered;
    var low, g := Gathered(cfg, s, xs, n), AtLevel(cfg, xs, n);
    if k == 0 {
      assert Above(s, low, []) == low;
    } else {
      AdmitsLevel(cfg, s, b, xs, n, k - 1);
      AdmitNextAtLevel(cfg, s, b.With(s, Above(s, low, g[..k - 1])), xs, n, k - 1);
      AdmitsNext(cfg, b, g, k - 1);
    }
  }

  lemma {:induction false} AdmitsLevels(cfg: BookConfig, s: Side, b: Book, xs: seq<Order>, n: nat)
    requires cfg.Valid() && Rebuildable(cfg, s, xs, b.On(s.Opposite())) && n <= cfg.numLevels && b.On(s) == []
    ensures Admits(cfg, b, Gathered(cfg, Ask, xs, n)) == Ok(b.With(s, Gathered(cfg, s, xs, n)))
  {
    hide Rebuildable, Admit;
    if n > 0 {
      var g := AtLevel(cfg, xs, n - 1);
      AdmitsLevels(cfg, s, b, xs, n - 1);
      AdmitsLevel(cfg, s, b.With(s, Gathered(cfg, s, xs, n - 1)), xs, n - 1, |g|);
      assert g[..|g|] == g;
      AdmitsAppend(cfg, b, Gathered(cfg, Ask, xs, n - 1), g);
    }
  }

  /** Rebuilding a tidy book from its own listing gives that book back. */
  lemma ListingRebuilds(cfg: BookConfig, b: Book)
    requires cfg.Valid() && Tidy(cfg, b)
    ensures Admits(cfg, EMPTY, Listing(cfg, b)) == Ok(b)
  {
    var half := Book(b.bids, []);
    AdmitsLevels(cfg, Bid, EMPTY, b.bids, cfg.numLevels);
    GatheredWhole(cfg, Bid, b.bids);
    AdmitsLevels(cfg, Ask, half, b.asks, cfg.numLevels);
    GatheredWhole(cfg, Ask, b.asks);
    AdmitsAppend(cfg, EMPTY, Ascending(cfg, b.bids), Ascending(cfg, b.asks));
  }

  /** Different tidy books have different listings. */
  lemma ListingInjective(cfg: BookConfig, b: Book, c: Book)
    requires cfg.Valid() && Tidy(cfg, b) && Tidy(cfg, c) && Listing(cfg, b) == Listing(cfg, c)
    ensures b == c
  {
    ListingRebuilds(cfg, b);
    ListingRebuilds(cfg, c);
  }
}
