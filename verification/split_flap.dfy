/** The split-flap text: one tile per character, each tile a small state
    machine that shows random glyphs for a while before settling on its target. */
module SplitFlap {
  import opened Basics

  const DefaultBaseFlips: nat := 6
  /** The default charset; the watchlist passes it explicitly for the symbol column. */
  const DefaultCharset: string := "ABCDEFGHIJKLMNOPQRSTUVWXYZ0123456789"
  /** The charsets the watchlist passes for the price and change columns. */
  const PriceCharset: string := "0123456789.$"
  const ChangeCharset: string := "0123456789.+-"

  /** A tile's state; `isFlipping` is true exactly while its interval runs,
      and `prevChar` is the target the running animation settles on. */
  datatype Tile = Tile(
    displayChar: char,
    isFlipping: bool,
    flipCount: nat,
    totalFlips: nat,
    prevChar: char)

  /** What every reachable tile satisfies. */
  predicate Wellformed(t: Tile) {
    && t.flipCount <= t.totalFlips
    && (!t.isFlipping ==> t.displayChar == t.prevChar)
  }

  /** Interval steps left before the tile stops: the flips still to show,
      plus the final settling step. */
  function Remaining(t: Tile): nat
    requires Wellformed(t)
  {
    if t.isFlipping then t.totalFlips - t.flipCount + 1 else 0
  }

  /** A freshly mounted tile. */
  function Mount(target: char): (t: Tile)
    ensures t.displayChar == target && !t.isFlipping && t.prevChar == target
    ensures Wellformed(t) && Remaining(t) == 0
  {
    Tile(target, false, 0, 0, target)
  }

  /** The number of random glyphs the tile at `index` shows. */
  function FlipBudget(index: nat, baseFlips: nat): nat {
    baseFlips + index * 2
  }

  /** The effect that runs when the target changes: a different target starts
      a new animation from zero (replacing any running one) and is recorded at
      once; the same target leaves the tile alone. */
  function Retarget(t: Tile, target: char, index: nat, baseFlips: nat): (u: Tile)
    requires Wellformed(t)
    ensures Wellformed(u)
    ensures t.prevChar == target ==> u == t
    ensures t.prevChar != target ==>
              && u.isFlipping && u.flipCount == 0
              && u.totalFlips == baseFlips + 2 * index
              && u.prevChar == target && u.displayChar == t.displayChar
              && Remaining(u) == baseFlips + 2 * index + 1
  {
    if t.prevChar != target then
      Tile(t.displayChar, true, 0, FlipBudget(index, baseFlips), target)
    else t
  }

  /** `charset[Math.floor(r * charset.length)]`. */
  function RandomGlyph(charset: string, r: real): (c: char)
    requires |charset| > 0 && IsDraw(r)
    ensures c in charset
  {
    var i := (r * |charset| as real).Floor;
    assert 0.0 <= r * |charset| as real < |charset| as real;
    charset[i]
  }

  /** One interval tick of a running animation. */
  function Step(t: Tile, charset: string, r: real): (u: Tile)
    requires Wellformed(t) && t.isFlipping
    requires |charset| > 0 && IsDraw(r)
    ensures Wellformed(u)
    ensures u.prevChar == t.prevChar && u.totalFlips == t.totalFlips
    ensures Remaining(u) == Remaining(t) - 1
    ensures t.flipCount < t.totalFlips ==>
              u.isFlipping && u.flipCount == t.flipCount + 1 && u.displayChar in charset
    ensures t.flipCount == t.totalFlips ==> !u.isFlipping && u.displayChar == t.prevChar
  {
    if t.flipCount < t.totalFlips then
      t.(displayChar := RandomGlyph(charset, r), flipCount := t.flipCount + 1)
    else
      t.(displayChar := t.prevChar, isFlipping := false)
  }

  /** Runs the interval for at most `|draws|` ticks; once the tile stops,
      further ticks do nothing (its interval is cleared). */
  function Animate(t: Tile, charset: string, draws: seq<real>): (u: Tile)
    requires Wellformed(t) && |charset| > 0 && AllDraws(draws)
    ensures Wellformed(u)
    ensures u.prevChar == t.prevChar && u.totalFlips == t.totalFlips
    ensures Remaining(u) == if |draws| < Remaining(t) then Remaining(t) - |draws| else 0
    ensures u.isFlipping ==> u.flipCount == t.flipCount + |draws|
    ensures u.isFlipping && |draws| > 0 ==> u.displayChar in charset
    ensures !t.isFlipping ==> u == t
    decreases |draws|
  {
    if |draws| == 0 || !t.isFlipping then t
    else Animate(Step(t, charset, draws[0]), charset, draws[1..])
  }

  /** After a target change the tile shows exactly `baseFlips + 2 * index`
      random glyphs from the charset and settles on the target at the next tick. */
  lemma {:induction false} SettlesAfterBudget(
    t0: Tile, target: char, index: nat, baseFlips: nat, charset: string, draws: seq<real>)
    requires Wellformed(t0) && t0.prevChar != target
    requires |charset| > 0 && AllDraws(draws)
    ensures var u := Animate(Retarget(t0, target, index, baseFlips), charset, draws);
            && (|draws| <= baseFlips + 2 * index ==> u.isFlipping && u.flipCount == |draws|)
            && (0 < |draws| <= baseFlips + 2 * index ==> u.displayChar in charset)
            && (|draws| > baseFlips + 2 * index ==> !u.isFlipping && u.displayChar == target)
  {
    var t := Retarget(t0, target, index, baseFlips);
    var u := Animate(t, charset, draws);
    assert Remaining(t) == baseFlips + 2 * index + 1;
  }

  /** With the default of six base flips, the tile at `index` flips 6 + 2 * index times. */
  lemma DefaultFlipCount(t0: Tile, target: char, index: nat)
    requires Wellformed(t0) && t0.prevChar != target
    ensures Retarget(t0, target, index, DefaultBaseFlips).totalFlips == 6 + 2 * index
  {
  }

  /** Every charset the watchlist uses is non-empty, so with the default base
      flips each of its tiles shows 6 + 2 * index glyphs of that charset and
      then its target. */
  lemma WatchlistTilesSettle(charset: string, t0: Tile, target: char, index: nat, draws: seq<real>)
    requires charset == DefaultCharset || charset == PriceCharset || charset == ChangeCharset
    requires Wellformed(t0) && t0.prevChar != target && AllDraws(draws)
    ensures var u := Animate(Retarget(t0, target, index, DefaultBaseFlips), charset, draws);
            && (0 < |draws| <= 6 + 2 * index ==> u.isFlipping && u.displayChar in charset)
            && (|draws| > 6 + 2 * index ==> !u.isFlipping && u.displayChar == target)
  {
    assert |charset| > 0;
    SettlesAfterBudget(t0, target, index, DefaultBaseFlips, charset, draws);
  }

  // ---------------------------------------------------------------- text

  /** What `SplitFlapText` hands each tile; the React key pairs index and char. */
  datatype TileProps = TileProps(key: (nat, char), targetChar: char, index: nat)

  /** `value.split("")` mapped to tiles: one per character, in order. */
  function SplitFlapText(value: string): (r: seq<TileProps>)
    ensures |r| == |value|
    ensures forall i :: 0 <= i < |r| ==> r[i].targetChar == value[i] && r[i].index == i
    ensures forall i, j :: 0 <= i < j < |r| ==> r[i].key != r[j].key
  {
    seq(|value|, i requires 0 <= i < |value| => TileProps((i, value[i]), value[i], i))
  }

  /** A mounted tile together with the props it was last rendered with. */
  datatype Slot = Slot(props: TileProps, tile: Tile)

  /** Position of the first mounted tile with the given key, if any. */
  function FindKey(slots: seq<Slot>, key: (nat, char)): (r: Option<nat>)
    ensures r.Some? ==> r.value < |slots| && slots[r.value].props.key == key
    ensures r.Some? ==> forall j :: 0 <= j < r.value ==> slots[j].props.key != key
    ensures r.None? ==> forall i :: 0 <= i < |slots| ==> slots[i].props.key != key
  {
    if |slots| == 0 then None
    else if slots[0].props.key == key then Some(0)
    else match FindKey(slots[1..], key)
      case None => None
      case Some(i) => Some(i + 1)
  }

  /** The first position holding `key` is the one `FindKey` returns. */
  lemma FindKeyFirst(slots: seq<Slot>, key: (nat, char))
    ensures forall k :: 0 <= k < |slots| && slots[k].props.key == key
                        && (forall j :: 0 <= j < k ==> slots[j].props.key != key) ==>
              FindKey(slots, key) == Some(k)
  {
    forall k | 0 <= k < |slots| && slots[k].props.key == key
               && (forall j :: 0 <= j < k ==> slots[j].props.key != key)
      ensures FindKey(slots, key) == Some(k)
    {
      var r := FindKey(slots, key);
      assert r.Some?;
      assert !(r.value < k) && !(k < r.value);
    }
  }

  predicate AllWellformed(slots: seq<Slot>) {
    forall i :: 0 <= i < |slots| ==> Wellformed(slots[i].tile)
  }

  /** A tile for new props: a tile with the same key keeps its state and sees
      the target-change effect; otherwise a fresh tile is mounted. */
  function Reconcile(mounted: seq<Slot>, p: TileProps, baseFlips: nat): (s: Slot)
    requires AllWellformed(mounted)
    ensures s.props == p && Wellformed(s.tile)
    ensures (forall k :: 0 <= k < |mounted| ==> mounted[k].props.key != p.key) ==>
              s.tile == Mount(p.targetChar)
    ensures forall k :: 0 <= k < |mounted| && mounted[k].props.key == p.key
                        && (forall j :: 0 <= j < k ==> mounted[j].props.key != p.key) ==>
              s.tile == Retarget(mounted[k].tile, p.targetChar, p.index, baseFlips)
  {
    FindKeyFirst(mounted, p.key);
    match FindKey(mounted, p.key)
    case Some(k) => Slot(p, Retarget(mounted[k].tile, p.targetChar, p.index, baseFlips))
    case None => Slot(p, Mount(p.targetChar))
  }

  /** Re-rendering `SplitFlapText` with a new value. */
  function Rerender(mounted: seq<Slot>, value: string, baseFlips: nat): (r: seq<Slot>)
    requires AllWellformed(mounted)
    ensures |r| == |value| && AllWellformed(r)
    ensures forall i :: 0 <= i < |r| ==> r[i].props == SplitFlapText(value)[i]
  {
    var props := SplitFlapText(value);
    seq(|props|, i requires 0 <= i < |props| => Reconcile(mounted, props[i], baseFlips))
  }

  /** Every tile shows its character and none is animating. */
  predicate Settled(slots: seq<Slot>, value: string) {
    && |slots| == |value|
    && forall i :: 0 <= i < |slots| ==>
         slots[i].props == TileProps((i, value[i]), value[i], i) && slots[i].tile == Mount(value[i])
  }

  /** Because the key includes the character, a changed character always
      remounts its tile, and a kept tile already has its target as `prevChar`:
      the target-change branch never fires, so the displayed text is always
      settled and no random glyph is ever shown. */
  lemma KeyedRemountNeverAnimates(mounted: seq<Slot>, v0: string, v1: string, baseFlips: nat)
    requires Settled(mounted, v0)
    ensures AllWellformed(mounted)
    ensures Settled(Rerender(mounted, v1, baseFlips), v1)
  {
    var r := Rerender(mounted, v1, baseFlips);
    forall i | 0 <= i < |r| ensures r[i].tile == Mount(v1[i]) {
      var p := SplitFlapText(v1)[i];
      match FindKey(mounted, p.key)
      case Some(k) =>
        assert mounted[k].props.key == (k, v0[k]);
      case None =>
    }
  }

  /** A sequence of values shown one after another, starting from nothing mounted. */
  function Display(values: seq<string>, baseFlips: nat): (r: seq<Slot>)
    ensures AllWellformed(r)
    ensures |values| > 0 ==> |r| == |values[|values| - 1]|
  {
    if |values| == 0 then []
    else Rerender(Display(values[..|values| - 1], baseFlips), values[|values| - 1], baseFlips)
  }

  /** However the value changes over time, the composed display is settled. */
  lemma {:induction false} DisplayAlwaysSettled(values: seq<string>, baseFlips: nat)
    requires |values| > 0
    ensures Settled(Display(values, baseFlips), values[|values| - 1])
    decreases |values|
  {
    var prefix := values[..|values| - 1];
    if |prefix| == 0 {
      assert Display(prefix, baseFlips) == [];
      KeyedRemountNeverAnimates([], [], values[0], baseFlips);
    } else {
      DisplayAlwaysSettled(prefix, baseFlips);
      KeyedRemountNeverAnimates(Display(prefix, baseFlips), prefix[|prefix| - 1], values[|values| - 1], baseFlips);
    }
  }
}
