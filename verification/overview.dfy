/** The overview panels: top gainers, top losers and most active, each a
    filter, a stable sort and a cut to the first five over a copy of the list. */
module Overview {
  import opened Basics
  import opened StockTypes

  const PanelSize: nat := 5

  /** The three orderings; each is "ascending by `Key`". */
  datatype Ranking = Gainers | Losers | Activity

  /** Gainers sort by descending percent, losers by ascending percent, the
      most active by descending absolute change. */
  function Key(o: Ranking, s: Stock): real {
    match o
    case Gainers => -s.changePercent
    case Losers => s.changePercent
    case Activity => -Abs(s.change)
  }

  predicate SortedBy(o: Ranking, s: seq<Stock>) {
    forall i, j :: 0 <= i < j < |s| ==> Key(o, s[i]) <= Key(o, s[j])
  }

  /** Putting `y` in front of a sorted list whose elements, and the extra `x`,
      all rank no better than `y` keeps it sorted. */
  lemma ConsSorted(o: Ranking, y: Stock, x: Stock, rest: seq<Stock>, t: seq<Stock>)
    requires SortedBy(o, [y] + rest) && Key(o, y) <= Key(o, x)
    requires SortedBy(o, t) && multiset(t) == multiset(rest) + multiset{x}
    ensures SortedBy(o, [y] + t)
  {
    forall k | 0 <= k < |t| ensures Key(o, y) <= Key(o, t[k]) {
      assert t[k] in multiset(t);
      if t[k] != x {
        assert t[k] in multiset(rest);
        var m :| 0 <= m < |rest| && rest[m] == t[k];
        var w := [y] + rest;
        assert w[0] == y && w[m + 1] == rest[m];
        assert Key(o, w[0]) <= Key(o, w[m + 1]);
      }
    }
    var u := [y] + t;
    forall i, j | 0 <= i < j < |u| ensures Key(o, u[i]) <= Key(o, u[j]) {
      if i == 0 {
        assert u[j] == t[j - 1];
      } else {
        assert u[i] == t[i - 1] && u[j] == t[j - 1];
      }
    }
  }

  /** Inserts `x` before the first element whose key is not smaller, so `x`
      goes ahead of every element with an equal key. */
  function Insert(o: Ranking, x: Stock, s: seq<Stock>): (r: seq<Stock>)
    requires SortedBy(o, s)
    ensures |r| == |s| + 1
    ensures multiset(r) == multiset(s) + multiset{x}
    ensures SortedBy(o, r)
  {
    if |s| == 0 || Key(o, x) <= Key(o, s[0]) then [x] + s
    else
      assert s == [s[0]] + s[1..];
      var t := Insert(o, x, s[1..]);
      ConsSorted(o, s[0], x, s[1..], t);
      [s[0]] + t
  }

  /** A stable sort (as `Array.prototype.sort` is): insertion sort, which
      keeps equal-key elements in their input order. */
  function SortBy(o: Ranking, s: seq<Stock>): (r: seq<Stock>)
    ensures |r| == |s|
    ensures multiset(r) == multiset(s)
    ensures SortedBy(o, r)
  {
    if |s| == 0 then []
    else
      assert s == [s[0]] + s[1..];
      Insert(o, s[0], SortBy(o, s[1..]))
  }

  /** `.slice(0, 5)`. */
  function Take(s: seq<Stock>): seq<Stock> {
    s[..Min(PanelSize, |s|)]
  }

  /** In a sorted list, an element with more copies in the whole list than in
      its first `m` entries ranks no better than any of those `m` entries. */
  lemma LeftOutRanksLower(o: Ranking, t: seq<Stock>, m: nat, x: Stock)
    requires SortedBy(o, t) && m <= |t|
    requires multiset(t[..m])[x] < multiset(t)[x]
    ensures forall i :: 0 <= i < m ==> Key(o, t[i]) <= Key(o, x)
  {
    var tail := t[m..];
    assert t == t[..m] + tail;
    assert x in multiset(tail);
    var k :| 0 <= k < |tail| && tail[k] == x;
    assert t[m + k] == x;
  }

  /** The first five of a sorted list are sorted, come from the list, and
      rank no worse than anything cut off. */
  lemma TakeOfSorted(o: Ranking, t: seq<Stock>)
    requires SortedBy(o, t)
    ensures var r := Take(t);
            && SortedBy(o, r)
            && multiset(r) <= multiset(t)
            && forall x :: multiset(r)[x] < multiset(t)[x] ==>
                 forall i :: 0 <= i < |r| ==> Key(o, r[i]) <= Key(o, x)
  {
    var r := Take(t);
    assert multiset(r) <= multiset(t) by {
      assert t == r + t[|r|..];
    }
    forall x | multiset(r)[x] < multiset(t)[x]
      ensures forall i :: 0 <= i < |r| ==> Key(o, r[i]) <= Key(o, x)
    {
      LeftOutRanksLower(o, t, |r|, x);
    }
  }

  /** The common shape of the three panels: at most five entries, sorted,
      drawn from the candidates, and every candidate left out ranks no better
      than any candidate kept. */
  function Panel(o: Ranking, f: seq<Stock>): (r: seq<Stock>)
    ensures |r| == Min(PanelSize, |f|)
    ensures SortedBy(o, r)
    ensures multiset(r) <= multiset(f)
    ensures forall x :: multiset(r)[x] < multiset(f)[x] ==>
              forall i :: 0 <= i < |r| ==> Key(o, r[i]) <= Key(o, x)
  {
    var t := SortBy(o, f);
    TakeOfSorted(o, t);
    Take(t)
  }

  /** A panel over the filtered list keeps only candidates, takes them from
      the whole list, and ranks every omitted candidate no better. */
  lemma PanelOfFiltered(o: Ranking, stocks: seq<Stock>, keep: Stock -> bool)
    ensures var r := Panel(o, Filter(stocks, keep));
            && (forall i :: 0 <= i < |r| ==> keep(r[i]))
            && multiset(r) <= multiset(stocks)
            && forall x :: keep(x) && multiset(r)[x] < multiset(stocks)[x] ==>
                 forall i :: 0 <= i < |r| ==> Key(o, r[i]) <= Key(o, x)
  {
    var f := Filter(stocks, keep);
    var r := Panel(o, f);
    FilteredPanelKeeps(o, f, keep, r);
    assert multiset(f) <= multiset(stocks);
    forall x | keep(x) && multiset(r)[x] < multiset(stocks)[x]
      ensures forall i :: 0 <= i < |r| ==> Key(o, r[i]) <= Key(o, x)
    {
      assert multiset(r)[x] < multiset(f)[x];
    }
  }

  lemma FilteredPanelKeeps(o: Ranking, f: seq<Stock>, keep: Stock -> bool, r: seq<Stock>)
    requires forall i :: 0 <= i < |f| ==> keep(f[i])
    requires multiset(r) <= multiset(f)
    ensures forall i :: 0 <= i < |r| ==> keep(r[i])
  {
    forall i | 0 <= i < |r| ensures keep(r[i]) {
      assert r[i] in multiset(f);
    }
  }

  predicate IsUp(s: Stock) {
    s.direction == Up
  }

  predicate IsDown(s: Stock) {
    s.direction == Down
  }

  /** Top gainers: the up to five `Up` stocks with the highest percent change. */
  function TopGainers(stocks: seq<Stock>): (r: seq<Stock>)
    ensures |r| == Min(PanelSize, CountWhere(stocks, IsUp))
    ensures forall i :: 0 <= i < |r| ==> r[i].direction == Up
    ensures forall i, j :: 0 <= i < j < |r| ==> r[i].changePercent >= r[j].changePercent
    ensures multiset(r) <= multiset(stocks)
    ensures forall x :: IsUp(x) && multiset(r)[x] < multiset(stocks)[x] ==>
              forall i :: 0 <= i < |r| ==> x.changePercent <= r[i].changePercent
  {
    PanelOfFiltered(Gainers, stocks, IsUp);
    Panel(Gainers, Filter(stocks, IsUp))
  }

  /** Top losers: the up to five `Down` stocks with the lowest percent change. */
  function TopLosers(stocks: seq<Stock>): (r: seq<Stock>)
    ensures |r| == Min(PanelSize, CountWhere(stocks, IsDown))
    ensures forall i :: 0 <= i < |r| ==> r[i].direction == Down
    ensures forall i, j :: 0 <= i < j < |r| ==> r[i].changePercent <= r[j].changePercent
    ensures multiset(r) <= multiset(stocks)
    ensures forall x :: IsDown(x) && multiset(r)[x] < multiset(stocks)[x] ==>
              forall i :: 0 <= i < |r| ==> x.changePercent >= r[i].changePercent
  {
    PanelOfFiltered(Losers, stocks, IsDown);
    Panel(Losers, Filter(stocks, IsDown))
  }

  /** Most active: the up to five stocks with the largest absolute change. */
  function MostActive(stocks: seq<Stock>): (r: seq<Stock>)
    ensures |r| == Min(PanelSize, |stocks|)
    ensures forall i, j :: 0 <= i < j < |r| ==> Abs(r[i].change) >= Abs(r[j].change)
    ensures multiset(r) <= multiset(stocks)
    ensures forall x :: multiset(r)[x] < multiset(stocks)[x] ==>
              forall i :: 0 <= i < |r| ==> Abs(x.change) <= Abs(r[i].change)
  {
    Panel(Activity, stocks)
  }

  /** Over a consistent watchlist every top gainer has a positive percent and
      every top loser a negative one. */
  lemma PanelSigns(stocks: seq<Stock>)
    requires AllConsistent(stocks)
    ensures forall i :: 0 <= i < |TopGainers(stocks)| ==> TopGainers(stocks)[i].changePercent > 0.0
    ensures forall i :: 0 <= i < |TopLosers(stocks)| ==> TopLosers(stocks)[i].changePercent < 0.0
  {
    var g := TopGainers(stocks);
    forall i | 0 <= i < |g| ensures g[i].changePercent > 0.0 {
      assert g[i] in multiset(stocks);
      var k :| 0 <= k < |stocks| && stocks[k] == g[i];
      PercentSign(stocks[k]);
    }
    var l := TopLosers(stocks);
    forall i | 0 <= i < |l| ensures l[i].changePercent < 0.0 {
      assert l[i] in multiset(stocks);
      var k :| 0 <= k < |stocks| && stocks[k] == l[i];
      PercentSign(stocks[k]);
    }
  }
}
