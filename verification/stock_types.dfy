/** The `Stock` record and the rule that derives its direction from its change. */
module StockTypes {

  datatype Direction = Up | Down | Flat

  datatype Stock = Stock(
    id: string,
    symbol: string,
    name: string,
    price: real,
    prevClose: real,
    change: real,
    changePercent: real,
    direction: Direction)

  /** Absolute change (not percent) within which a stock counts as flat. */
  const FlatBand: real := 0.01

  /** The classifier shared by seeding and updating. */
  function DirectionOf(change: real): (d: Direction)
    ensures d == Up <==> change > FlatBand
    ensures d == Down <==> change < -FlatBand
    ensures d == Flat <==> -FlatBand <= change <= FlatBand
  {
    if change > FlatBand then Up else if change < -FlatBand then Down else Flat
  }

  function Rank(d: Direction): int {
    match d
    case Down => -1
    case Flat => 0
    case Up => 1
  }

  function Opposite(d: Direction): Direction {
    match d
    case Down => Up
    case Flat => Flat
    case Up => Down
  }

  /** A larger change never gets a lower direction. */
  lemma DirectionMonotone(c1: real, c2: real)
    requires c1 <= c2
    ensures Rank(DirectionOf(c1)) <= Rank(DirectionOf(c2))
  {
  }

  /** The band is symmetric: negating the change flips the direction. */
  lemma DirectionSymmetric(c: real)
    ensures DirectionOf(-c) == Opposite(DirectionOf(c))
  {
  }

  function PercentOf(change: real, prevClose: real): real
    requires prevClose != 0.0
  {
    change / prevClose * 100.0
  }

  /** What every stock the application holds satisfies: a positive price and
      baseline, change measured against the baseline, and derived fields in step. */
  predicate Consistent(s: Stock) {
    && s.price > 0.0
    && s.prevClose > 0.0
    && s.change == s.price - s.prevClose
    && s.changePercent == PercentOf(s.change, s.prevClose)
    && s.direction == DirectionOf(s.change)
  }

  predicate AllConsistent(stocks: seq<Stock>) {
    forall i :: 0 <= i < |stocks| ==> Consistent(stocks[i])
  }

  /** For a consistent stock the percent has the sign of the change, so an
      `Up` stock has a positive percent and a `Down` stock a negative one. */
  lemma PercentSign(s: Stock)
    requires Consistent(s)
    ensures s.changePercent > 0.0 <==> s.change > 0.0
    ensures s.changePercent < 0.0 <==> s.change < 0.0
    ensures s.direction == Up ==> s.changePercent > 0.0
    ensures s.direction == Down ==> s.changePercent < 0.0
  {
    var q := s.change / s.prevClose;
    assert q * s.prevClose == s.change;
    if s.change > 0.0 {
      assert q > 0.0;
    } else if s.change < 0.0 {
      assert q < 0.0;
    } else {
      assert q == 0.0;
    }
  }

  /** The band is on the absolute change, not the percent: with a tiny
      baseline a consistent stock can be 50% up and still be flat. No stock the
      application holds has such a baseline (seeded ones start above 40, added
      ones at 10 or more); for those `FlatPercentSmall` bounds the percent. */
  lemma FlatDespiteLargePercent()
    ensures var s := Stock("x", "X", "X", 0.015, 0.01, 0.005, 50.0, Flat);
            Consistent(s) && s.direction == Flat && s.changePercent == 50.0
  {
  }

  /** With a baseline of at least 10, as every seeded or added stock has, a
      flat stock's percent change lies within ±0.1. */
  lemma FlatPercentSmall(s: Stock)
    requires Consistent(s) && s.prevClose >= 10.0 && s.direction == Flat
    ensures -0.1 <= s.changePercent <= 0.1
  {
    DivLe(-0.01, s.change, s.prevClose);
    DivLe(s.change, 0.01, s.prevClose);
    assert 0.01 / s.prevClose <= 0.001;
  }

  /** Dividing by a positive number keeps the order. */
  lemma DivLe(a: real, b: real, c: real)
    requires c > 0.0 && a <= b
    ensures a / c <= b / c
  {
    assert b / c - a / c == (b - a) / c;
  }
}
