/** The watchlist page: the periodic tick, adding and removing stocks, and the
    invariant every reachable watchlist keeps. */
module Watchlist {
  import opened Basics
  import opened Text
  import opened StockTypes
  import opened StockData

  // ---------------------------------------------------------------- tick

  /** How many entries a tick wants to update: floor(5r) + 2. */
  function NumToUpdate(r: real): (k: int)
    requires IsDraw(r)
    ensures 2 <= k <= 6
    ensures (k - 2) as real <= 5.0 * r < (k - 1) as real
  {
    (r * 5.0).Floor + 2
  }

  /** The index one draw picks in a list of length `n`: floor(d * n). */
  function IndexOf(d: real, n: nat): (i: nat)
    requires IsDraw(d)
    ensures n > 0 ==> i < n
    ensures i as real <= d * n as real < i as real + 1.0
  {
    assert 0.0 <= d * n as real <= n as real;
    (d * n as real).Floor
  }

  /** The set of indices a sequence of draws picks. */
  function DrawnIndices(draws: seq<real>, n: nat): set<nat>
    requires AllDraws(draws)
  {
    if |draws| == 0 then {} else {IndexOf(draws[0], n)} + DrawnIndices(draws[1..], n)
  }

  /** The indices the draws pick, in the order first drawn, leaving out repeats
      and anything already in `seen`: the insertion order of a `Set` that
      starts as `seen` and receives every drawn index. */
  function FirstDistinct(n: nat, draws: seq<real>, seen: seq<nat>): seq<nat>
    requires AllDraws(draws)
    decreases |draws|
  {
    if |draws| == 0 then []
    else
      var i := IndexOf(draws[0], n);
      if i in seen then FirstDistinct(n, draws[1..], seen)
      else [i] + FirstDistinct(n, draws[1..], seen + [i])
  }

  /** The selection loop of the tick: draw indices, ignoring repeats, until
      `want` distinct ones are chosen. `None` means the draws ran out first. */
  function Select(n: nat, want: nat, draws: seq<real>, chosen: seq<nat>): (r: Option<seq<nat>>)
    requires want <= n
    requires AllDraws(draws)
    requires |chosen| <= want && Distinct(chosen) && InRange(chosen, n)
    ensures r.Some? ==> |r.value| == want && Distinct(r.value) && InRange(r.value, n)
    ensures r.Some? ==> r.value[..|chosen|] == chosen
    ensures r.Some? ==> forall j :: |chosen| <= j < |r.value| ==> r.value[j] in DrawnIndices(draws, n)
    ensures r.Some? <==> |chosen| + |FirstDistinct(n, draws, chosen)| >= want
    ensures r.Some? ==> r.value == (chosen + FirstDistinct(n, draws, chosen))[..want]
    decreases |draws|
  {
    if |chosen| == want then Some(chosen)
    else if |draws| == 0 then None
    else
      var i := IndexOf(draws[0], n);
      if i in chosen then Select(n, want, draws[1..], chosen)
      else
        var r := Select(n, want, draws[1..], chosen + [i]);
        assert r.Some? ==> r.value[..|chosen|] == (chosen + [i])[..|chosen|];
        assert chosen + FirstDistinct(n, draws, chosen)
               == (chosen + [i]) + FirstDistinct(n, draws[1..], chosen + [i]);
        r
  }

  /** What one pass of the selection loop chooses next. */
  function NextChosen(n: nat, d: real, chosen: seq<nat>): seq<nat>
    requires IsDraw(d)
  {
    var i := IndexOf(d, n);
    if i in chosen then chosen else chosen + [i]
  }

  /** One pass keeps the choice repeat-free and in range, and moves the first
      draw's index from the pending draws into the choice. */
  lemma NextChosenFacts(n: nat, draws: seq<real>, chosen: seq<nat>)
    requires n > 0 && |draws| > 0 && AllDraws(draws)
    requires Distinct(chosen) && InRange(chosen, n)
    ensures var next := NextChosen(n, draws[0], chosen);
            && Distinct(next) && InRange(next, n) && |next| <= |chosen| + 1
            && (set x | x in next) + DrawnIndices(draws[1..], n)
               == (set x | x in chosen) + DrawnIndices(draws, n)
  {
    var i := IndexOf(draws[0], n);
    if i !in chosen {
      DistinctSnoc(chosen, i);
    }
    var next := NextChosen(n, draws[0], chosen);
    assert (set x | x in next) == (set x | x in chosen) + {i};
  }

  /** Given enough distinct indices among the draws, the selection loop finishes. */
  lemma {:induction false} SelectSucceeds(n: nat, want: nat, draws: seq<real>, chosen: seq<nat>)
    requires want <= n
    requires AllDraws(draws)
    requires |chosen| <= want && Distinct(chosen) && InRange(chosen, n)
    requires |(set x | x in chosen) + DrawnIndices(draws, n)| >= want
    ensures Select(n, want, draws, chosen).Some?
    decreases |draws|
  {
    if |chosen| < want {
      DistinctSize(chosen);
      assert |draws| > 0;
      NextChosenFacts(n, draws, chosen);
      SelectSucceeds(n, want, draws[1..], NextChosen(n, draws[0], chosen));
    }
  }

  /** Applies one update per chosen index, the j-th chosen index taking the j-th draw. */
  function ApplyUpdates(stocks: seq<Stock>, idx: seq<nat>, draws: seq<real>): (r: seq<Stock>)
    requires Distinct(idx) && InRange(idx, |stocks|)
    requires |draws| >= |idx| && AllDraws(draws)
    requires forall i :: 0 <= i < |stocks| ==> stocks[i].prevClose != 0.0
    ensures |r| == |stocks|
    ensures forall p :: 0 <= p < |stocks| && p !in idx ==> r[p] == stocks[p]
    ensures forall j :: 0 <= j < |idx| ==> r[idx[j]] == SimulateStockUpdate(stocks[idx[j]], draws[j])
    decreases |idx|
  {
    if |idx| == 0 then stocks
    else
      var next := stocks[idx[0] := SimulateStockUpdate(stocks[idx[0]], draws[0])];
      var rest := idx[1..];
      DistinctTail(idx);
      var r := ApplyUpdates(next, rest, draws[1..]);
      assert forall j :: 1 <= j < |idx| ==> idx[j] == rest[j - 1];
      r
  }

  /** A completed tick: the new list and the indices it updated, in update order. */
  datatype TickOutcome = TickOutcome(stocks: seq<Stock>, updated: seq<nat>)

  /** The interval body of the page: pick min(k, n) distinct indices and replace
      exactly those entries by their simulated update. `None` means the draws
      supplied ran out before the tick could finish. */
  function Tick(stocks: seq<Stock>, kDraw: real, indexDraws: seq<real>, updateDraws: seq<real>)
    : (r: Option<TickOutcome>)
    requires IsDraw(kDraw) && AllDraws(indexDraws) && AllDraws(updateDraws)
    requires forall i :: 0 <= i < |stocks| ==> stocks[i].prevClose != 0.0
    ensures r.Some? ==> |r.value.updated| == Min(NumToUpdate(kDraw), |stocks|)
    ensures r.Some? ==> Min(2, |stocks|) <= |r.value.updated| <= Min(6, |stocks|)
    ensures r.Some? ==> Distinct(r.value.updated) && InRange(r.value.updated, |stocks|)
    ensures r.Some? ==> && Min(NumToUpdate(kDraw), |stocks|) <= |FirstDistinct(|stocks|, indexDraws, [])|
                        && r.value.updated
                           == FirstDistinct(|stocks|, indexDraws, [])[..Min(NumToUpdate(kDraw), |stocks|)]
    ensures r.Some? ==> |r.value.stocks| == |stocks| && |updateDraws| >= |r.value.updated|
    ensures r.Some? ==> forall p :: 0 <= p < |stocks| && p !in r.value.updated ==>
                          r.value.stocks[p] == stocks[p]
    ensures r.Some? ==> forall j :: 0 <= j < |r.value.updated| ==>
                          r.value.stocks[r.value.updated[j]]
                            == SimulateStockUpdate(stocks[r.value.updated[j]], updateDraws[j])
    ensures |stocks| == 0 ==> r == Some(TickOutcome([], []))
  {
    var want := Min(NumToUpdate(kDraw), |stocks|);
    match Select(|stocks|, want, indexDraws, [])
    case None => None
    case Some(idx) =>
      if |updateDraws| < |idx| then None
      else Some(TickOutcome(ApplyUpdates(stocks, idx, updateDraws), idx))
  }

  /** A tick finishes whenever the index draws cover enough distinct indices
      and there is one update draw for each of the (at most six) updates. */
  lemma TickCompletes(stocks: seq<Stock>, kDraw: real, indexDraws: seq<real>, updateDraws: seq<real>)
    requires IsDraw(kDraw) && AllDraws(indexDraws) && AllDraws(updateDraws)
    requires forall i :: 0 <= i < |stocks| ==> stocks[i].prevClose != 0.0
    requires |DrawnIndices(indexDraws, |stocks|)| >= Min(NumToUpdate(kDraw), |stocks|)
    requires |updateDraws| >= Min(NumToUpdate(kDraw), |stocks|)
    ensures Tick(stocks, kDraw, indexDraws, updateDraws).Some?
  {
    var want := Min(NumToUpdate(kDraw), |stocks|);
    assert (set x | x in []) + DrawnIndices(indexDraws, |stocks|) == DrawnIndices(indexDraws, |stocks|);
    SelectSucceeds(|stocks|, want, indexDraws, []);
  }

  /** A tick keeps every stock consistent. */
  lemma TickPreservesConsistency(stocks: seq<Stock>, kDraw: real, indexDraws: seq<real>, updateDraws: seq<real>)
    requires IsDraw(kDraw) && AllDraws(indexDraws) && AllDraws(updateDraws)
    requires AllConsistent(stocks)
    ensures var r := Tick(stocks, kDraw, indexDraws, updateDraws);
            r.Some? ==> AllConsistent(r.value.stocks)
  {
    var r := Tick(stocks, kDraw, indexDraws, updateDraws);
    if r.Some? {
      var u := r.value.updated;
      forall p | 0 <= p < |stocks| ensures Consistent(r.value.stocks[p]) {
        if p in u {
          var j :| 0 <= j < |u| && u[j] == p;
          assert r.value.stocks[u[j]] == SimulateStockUpdate(stocks[u[j]], updateDraws[j]);
        }
      }
    }
  }

  // ---------------------------------------------------------------- add / remove

  /** The stock `addStock` builds: symbol upper-cased, name defaulting to that
      symbol, price in [10, 510) and the baseline equal to the price. */
  function NewStock(id: string, symbol: string, name: string, priceDraw: real): (s: Stock)
    requires IsDraw(priceDraw)
    ensures s.id == id && s.symbol == Upper(symbol)
    ensures name == [] ==> s.name == Upper(symbol)
    ensures name != [] ==> s.name == name
    ensures 10.0 <= s.price < 510.0 && s.prevClose == s.price
    ensures s.change == 0.0 && s.changePercent == 0.0 && s.direction == Flat
    ensures Consistent(s)
  {
    var price := priceDraw * 500.0 + 10.0;
    Stock(id, Upper(symbol), if name == [] then Upper(symbol) else name,
          price, price, 0.0, 0.0, Flat)
  }

  /** `addStock`: appends exactly one new stock after the existing ones. */
  function AddStock(stocks: seq<Stock>, id: string, symbol: string, name: string, priceDraw: real)
    : (r: seq<Stock>)
    requires IsDraw(priceDraw)
    ensures |r| == |stocks| + 1 && r[..|stocks|] == stocks
    ensures r[|stocks|].id == id && r[|stocks|].symbol == Upper(symbol)
    ensures r[|stocks|].name == (if name == [] then Upper(symbol) else name)
    ensures 10.0 <= r[|stocks|].price < 510.0 && r[|stocks|].prevClose == r[|stocks|].price
    ensures r[|stocks|].change == 0.0 && r[|stocks|].direction == Flat
    ensures AllConsistent(stocks) ==> AllConsistent(r)
  {
    stocks + [NewStock(id, symbol, name, priceDraw)]
  }

  /** `removeStock`: keeps exactly the entries with a different id, in order. */
  function RemoveStock(stocks: seq<Stock>, id: string): (r: seq<Stock>)
    ensures forall i :: 0 <= i < |r| ==> r[i].id != id
    ensures forall x :: multiset(r)[x] == if x.id == id then 0 else multiset(stocks)[x]
    ensures IsSubsequence(r, stocks)
    ensures (forall i :: 0 <= i < |stocks| ==> stocks[i].id != id) ==> r == stocks
    ensures AllConsistent(stocks) ==> AllConsistent(r)
  {
    var r := Filter(stocks, (s: Stock) => s.id != id);
    assert forall i :: 0 <= i < |r| ==> r[i] in multiset(stocks);
    r
  }

  /** Removing the same id twice is the same as removing it once. */
  lemma RemoveIdempotent(stocks: seq<Stock>, id: string)
    ensures RemoveStock(RemoveStock(stocks, id), id) == RemoveStock(stocks, id)
  {
  }

  /** The add button's guard: a blank input is ignored, anything else is
      trimmed and added with an empty name, so the name defaults to the symbol. */
  function HandleAddStock(stocks: seq<Stock>, input: string, id: string, priceDraw: real)
    : (r: seq<Stock>)
    requires IsDraw(priceDraw)
    ensures r == stocks <==> AllWhitespace(input)
    ensures !AllWhitespace(input) ==>
              && |r| == |stocks| + 1 && r[..|stocks|] == stocks
              && r[|stocks|].symbol == Upper(Trim(input))
              && r[|stocks|].name == r[|stocks|].symbol
    ensures AllConsistent(stocks) ==> AllConsistent(r)
  {
    var symbol := Trim(input);
    if symbol != [] then AddStock(stocks, id, symbol, [], priceDraw) else stocks
  }

  // ---------------------------------------------------------------- sessions

  /** One user or timer event on the page, with the randomness it consumes. */
  datatype Action =
    | TickAction(kDraw: real, indexDraws: seq<real>, updateDraws: seq<real>)
    | AddAction(id: string, symbol: string, name: string, priceDraw: real)
    | RemoveAction(id: string)

  predicate DrawsOk(a: Action) {
    match a
    case TickAction(k, ix, us) => IsDraw(k) && AllDraws(ix) && AllDraws(us)
    case AddAction(_, _, _, p) => IsDraw(p)
    case RemoveAction(_) => true
  }

  /** One event applied to a consistent watchlist keeps it consistent. */
  function Apply(stocks: seq<Stock>, a: Action): (r: Option<seq<Stock>>)
    requires AllConsistent(stocks) && DrawsOk(a)
    ensures r.Some? ==> AllConsistent(r.value)
    ensures !a.TickAction? ==> r.Some?
  {
    match a
    case TickAction(k, ix, us) =>
      TickPreservesConsistency(stocks, k, ix, us);
      (match Tick(stocks, k, ix, us)
       case None => None
       case Some(t) => Some(t.stocks))
    case AddAction(id, sym, name, p) => Some(AddStock(stocks, id, sym, name, p))
    case RemoveAction(id) => Some(RemoveStock(stocks, id))
  }

  /** A sequence of events; `None` if some tick ran out of draws. */
  function Run(stocks: seq<Stock>, actions: seq<Action>): (r: Option<seq<Stock>>)
    requires AllConsistent(stocks)
    requires forall i :: 0 <= i < |actions| ==> DrawsOk(actions[i])
    ensures r.Some? ==> AllConsistent(r.value)
    decreases |actions|
  {
    if |actions| == 0 then Some(stocks)
    else
      match Apply(stocks, actions[0])
      case None => None
      case Some(next) => Run(next, actions[1..])
  }

  /** Starting from the seeded catalog, any sequence of ticks, adds and removes
      leaves every stock with a positive price and baseline and a direction
      that agrees with its change. */
  lemma SessionKeepsInvariant(seed: seq<SeedDraw>, actions: seq<Action>)
    requires |seed| == |DefaultStocks|
    requires forall i :: 0 <= i < |seed| ==> SeedDrawOk(seed[i])
    requires forall i :: 0 <= i < |actions| ==> DrawsOk(actions[i])
    ensures var r := Run(GenerateInitialStocks(seed), actions);
            r.Some? ==> AllConsistent(r.value) && forall i :: 0 <= i < |r.value| ==>
              && r.value[i].price > 0.0
              && r.value[i].prevClose > 0.0
              && r.value[i].direction == DirectionOf(r.value[i].change)
  {
  }

  /** One tick on the freshly seeded list keeps its 15 entries and updates
      between two and six of them. */
  lemma SeedThenTick(seed: seq<SeedDraw>, kDraw: real, indexDraws: seq<real>, updateDraws: seq<real>)
    requires |seed| == |DefaultStocks|
    requires forall i :: 0 <= i < |seed| ==> SeedDrawOk(seed[i])
    requires IsDraw(kDraw) && AllDraws(indexDraws) && AllDraws(updateDraws)
    ensures var s := GenerateInitialStocks(seed);
            var r := Tick(s, kDraw, indexDraws, updateDraws);
            r.Some? ==> |r.value.stocks| == 15 && 2 <= |r.value.updated| <= 6
  {
  }
}
