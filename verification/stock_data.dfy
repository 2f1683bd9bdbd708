/** The price simulator: seeding from the fixed catalog and the one-step random walk. */
module StockData {
  import opened Basics
  import opened StockTypes

  datatype Listing = Listing(symbol: string, name: string)

  /** The fixed default catalog, in display order. */
  const DefaultStocks: seq<Listing> := [
    Listing("AAPL", "Apple Inc."),
    Listing("GOOGL", "Alphabet Inc."),
    Listing("MSFT", "Microsoft Corp."),
    Listing("AMZN", "Amazon.com Inc."),
    Listing("TSLA", "Tesla Inc."),
    Listing("META", "Meta Platforms"),
    Listing("NVDA", "NVIDIA Corp."),
    Listing("JPM", "JPMorgan Chase"),
    Listing("V", "Visa Inc."),
    Listing("WMT", "Walmart Inc."),
    Listing("JNJ", "Johnson & Johnson"),
    Listing("PG", "Procter & Gamble"),
    Listing("MA", "Mastercard Inc."),
    Listing("UNH", "UnitedHealth"),
    Listing("HD", "Home Depot")
  ]

  const Volatility: real := 0.02
  const PriceFloor: real := 0.01

  /** The randomness one catalog entry consumes: a fresh id and two draws. */
  datatype SeedDraw = SeedDraw(id: string, priceDraw: real, changeDraw: real)

  predicate SeedDrawOk(d: SeedDraw) {
    IsDraw(d.priceDraw) && IsDraw(d.changeDraw)
  }

  /** One seeded stock: price in [50, 450), change in [-10, 10), and a baseline
      chosen so that price - baseline is exactly that change. */
  function SeedStock(entry: Listing, d: SeedDraw): (s: Stock)
    requires SeedDrawOk(d)
    ensures s.id == d.id && s.symbol == entry.symbol && s.name == entry.name
    ensures 50.0 <= s.price < 450.0
    ensures -10.0 <= s.change < 10.0
    ensures s.price - s.prevClose == s.change
    ensures 40.0 < s.prevClose <= 460.0
    ensures Consistent(s)
  {
    var basePrice := d.priceDraw * 400.0 + 50.0;
    var change := (d.changeDraw - 0.5) * 20.0;
    var prevClose := basePrice - change;
    Stock(d.id, entry.symbol, entry.name, basePrice, prevClose, change,
          PercentOf(change, prevClose), DirectionOf(change))
  }

  /** `generateInitialStocks`: one stock per catalog entry, in catalog order. */
  function GenerateInitialStocks(draws: seq<SeedDraw>): (r: seq<Stock>)
    requires |draws| == |DefaultStocks|
    requires forall i :: 0 <= i < |draws| ==> SeedDrawOk(draws[i])
    ensures |r| == 15
    ensures forall i :: 0 <= i < |r| ==>
              && r[i].id == draws[i].id
              && r[i].symbol == DefaultStocks[i].symbol
              && r[i].name == DefaultStocks[i].name
              && 50.0 <= r[i].price < 450.0
              && -10.0 <= r[i].change < 10.0
              && 40.0 < r[i].prevClose
    ensures AllConsistent(r)
  {
    seq(|DefaultStocks|, i requires 0 <= i < |DefaultStocks| => SeedStock(DefaultStocks[i], draws[i]))
  }

  /** The unclamped random-walk step for current price `p` and draw `r`. */
  function Step(p: real, r: real): real {
    p * Volatility * (r - 0.5)
  }

  /** For a positive price the step lies in [-1%, +1%) of that price. */
  lemma StepWithinOnePercent(p: real, r: real)
    requires p > 0.0 && IsDraw(r)
    ensures -0.01 * p <= Step(p, r) < 0.01 * p
  {
    assert Step(p, r) == p * (0.02 * r - 0.01);
    assert -0.01 <= 0.02 * r - 0.01 < 0.01;
  }

  lemma StepBounds(p: real, r: real)
    requires IsDraw(r)
    ensures p > 0.0 ==> -0.01 * p <= Step(p, r) < 0.01 * p
  {
    if p > 0.0 {
      StepWithinOnePercent(p, r);
    }
  }

  /** `simulateStockUpdate`: moves the price, clamps it at the floor, and
      re-derives change, percent and direction against the fixed baseline. */
  function SimulateStockUpdate(s: Stock, r: real): (u: Stock)
    requires IsDraw(r)
    requires s.prevClose != 0.0
    ensures u.id == s.id && u.symbol == s.symbol && u.name == s.name
    ensures u.prevClose == s.prevClose
    ensures u.price >= PriceFloor
    ensures u.change == u.price - s.prevClose
    ensures u.changePercent == PercentOf(u.change, s.prevClose)
    ensures u.direction == DirectionOf(u.change)
    ensures s.price > 0.0 ==> 0.99 * s.price <= u.price
    ensures s.price > 0.0 ==> u.price < 1.01 * s.price || u.price == PriceFloor
    ensures s.prevClose > 0.0 ==> Consistent(u)
  {
    StepBounds(s.price, r);
    var newPrice := Max(PriceFloor, s.price + Step(s.price, r));
    var newChange := newPrice - s.prevClose;
    s.(price := newPrice, change := newChange,
       changePercent := PercentOf(newChange, s.prevClose),
       direction := DirectionOf(newChange))
  }

  /** Repeated updates of one stock, one draw per update. */
  function UpdateRepeatedly(s: Stock, draws: seq<real>): Stock
    requires AllDraws(draws)
    requires s.prevClose != 0.0
    decreases |draws|
  {
    if |draws| == 0 then s
    else
      var u := SimulateStockUpdate(s, draws[0]);
      UpdateRepeatedly(u, draws[1..])
  }

  /** However many updates a stock goes through, its identity and baseline
      never move, and a consistent stock stays consistent. */
  lemma {:induction false} BaselineFixed(s: Stock, draws: seq<real>)
    requires AllDraws(draws)
    requires s.prevClose != 0.0
    decreases |draws|
    ensures var u := UpdateRepeatedly(s, draws);
            && u.id == s.id && u.symbol == s.symbol && u.name == s.name
            && u.prevClose == s.prevClose
            && (|draws| > 0 ==> u.change == u.price - s.prevClose && u.price >= PriceFloor)
            && (Consistent(s) ==> Consistent(u))
  {
    if |draws| > 0 {
      BaselineFixed(SimulateStockUpdate(s, draws[0]), draws[1..]);
    }
  }
}
