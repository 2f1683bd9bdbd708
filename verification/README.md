# Stock ticker simulation core, in Dafny

This project models the simulation core of a stock-ticker dashboard. That core is:

- the price simulator that seeds a fixed 15-entry catalog and moves prices by a bounded random walk;
- the watchlist page, which runs a periodic tick that updates two to six random entries, adds a typed symbol and removes an entry by id;
- the three overview panels: top gainers, top losers and most active;
- the split-flap display, where each character tile shows random glyphs for a number of interval ticks and then settles on its target.

Everything is pure once the randomness is made explicit:

- every `Math.random()` draw is a `real` parameter in `[0, 1)` (`Basics.IsDraw`);
- ids that `crypto.randomUUID()` would produce are opaque strings passed in;
- prices, changes and percents are mathematical reals.

An operation that loops until enough random draws have been consumed is a function over a finite sequence of draws. It returns `None` when the supplied draws run out before the loop could finish.

Modules, one file each:

- `basics.dfy` (`Basics`): `Option`, draws, repeat-free index lists and an order-keeping `Filter` with its full specification.
- `text.dfy` (`Text`): `toUpperCase` on ASCII letters and `trim` over the ECMAScript white-space and line-terminator set.
- `stock_types.dfy` (`StockTypes`): the `Stock` record, the direction rule and the consistency invariant.
- `stock_data.dfy` (`StockData`): the default catalog, seeding and the single-step update.
- `watchlist.dfy` (`Watchlist`): the tick, add, remove, the add button's guard, and whole sessions of events.
- `overview.dfy` (`Overview`): the three ranking panels, built on a stable insertion sort.
- `split_flap.dfy` (`SplitFlap`): the tile state machine and the keyed char-to-tile rendering.

The central invariant is `StockTypes.Consistent`:

- price > 0 and baseline (`prevClose`) > 0;
- `change == price - prevClose`;
- `changePercent == change / prevClose * 100`;
- `direction` is the ±0.01 rule applied to `change`.

Seeding establishes it. Every tick, add and remove preserves it. `Watchlist.SessionKeepsInvariant` proves it for any session that starts from the seeded catalog.

The composition of the split-flap tile with the text renderer deserves a note. The renderer keys each tile by index and character (`components/split-flap-text.tsx:105`). So a tile whose character changes is always replaced by a freshly mounted one. A tile that is kept already has that character as its recorded target. As a result, the animation branch of the tile's effect can never fire in this composition. `SplitFlap.KeyedRemountNeverAnimates` and `SplitFlap.DisplayAlwaysSettled` state this as an observation about the code as it stands. The tile itself is modelled and proved on its own, where the animation does run.

## Model

| member | source | states |
|---|---|---|
| StockTypes.DirectionOf | lib/stock-data.ts:27 | `Up` exactly when change > 0.01, `Down` exactly when change < -0.01, `Flat` exactly when it is within the band; the same rule is used when seeding and updating |
| StockTypes.DirectionMonotone | lib/stock-data.ts:48 | a larger change never gets a lower direction |
| StockTypes.DirectionSymmetric | lib/stock-data.ts:48 | negating the change swaps `Up` and `Down` and keeps `Flat` |
| StockTypes.PercentSign | lib/stock-data.ts:26-27 | for a consistent stock, changePercent = change / prevClose · 100 has the sign of change, so an `Up` stock has a positive percent and a `Down` stock a negative one |
| StockTypes.FlatDespiteLargePercent | lib/stock-data.ts:48 | the band is on the absolute change, not the percent: with a baseline of 0.01, a baseline no stock in the application has, a consistent stock can be 50% above it and still be `Flat` |
| StockTypes.FlatPercentSmall | lib/stock-data.ts:47-48 | with a baseline of at least 10, as every seeded or added stock has, a `Flat` stock's percent change lies within ±0.1 |
| StockData.SeedStock | lib/stock-data.ts:22-38 | a seeded stock copies symbol and name, has price in [50, 450), change in [-10, 10) and price - prevClose = change, hence prevClose > 40, and satisfies the invariant |
| StockData.GenerateInitialStocks | lib/stock-data.ts:3-40 | exactly 15 stocks, one per catalog entry in catalog order, with symbol and name copied, each with the seeding bounds and the invariant |
| StockData.StepWithinOnePercent | lib/stock-data.ts:43-44 | for a positive price and a draw in [0, 1) the unclamped step lies in [-1%, +1%) of the price |
| StockData.SimulateStockUpdate | lib/stock-data.ts:42-57 | id, symbol, name and prevClose unchanged; new price at least 0.01 whatever the input; change measured against the fixed baseline; percent and direction derived from it; the price moves by less than 1% unless clamped; the invariant is kept |
| StockData.BaselineFixed | lib/stock-data.ts:42-57 | any number of successive updates leaves identity and baseline untouched and keeps a consistent stock consistent |
| Text.Upper | components/stock-ticker-page.tsx:47 | upper-casing keeps the length and maps each ASCII lower-case letter to its capital and leaves every other character alone |
| Text.UpperIdempotent | components/stock-ticker-page.tsx:47-48 | upper-casing an upper-cased symbol changes nothing |
| Text.Trim | components/watchlist-table.tsx:156-157 | the trimmed input is a contiguous slice of the input with only white space before and after it; it is empty exactly when the input is all white space, and otherwise starts and ends with a non-white-space character |
| Text.TrimPadded | components/watchlist-table.tsx:156 | dropping leading and then trailing white space leaves a slice of the input with only white space on either side |
| Text.TrimIdempotent | components/watchlist-table.tsx:156-157 | trimming twice is trimming once |
| Watchlist.NumToUpdate | components/stock-ticker-page.tsx:24 | the tick wants k = floor(5r) + 2 entries, with 2 <= k <= 6 |
| Watchlist.IndexOf | components/stock-ticker-page.tsx:28 | one index draw picks floor(d · n), an index inside the list |
| Watchlist.Select | components/stock-ticker-page.tsx:25-29 | the selection loop completes exactly when the draws pick enough distinct indices, and then yields the first `want` distinct indices drawn, in the order first drawn (the `Set`'s insertion order), all in range |
| Watchlist.NextChosenFacts | components/stock-ticker-page.tsx:27-28 | one pass of the loop keeps the choice repeat-free and in range and adds at most the one newly drawn index |
| Watchlist.SelectSucceeds | components/stock-ticker-page.tsx:27-29 | the loop terminates once the draws have covered enough distinct indices |
| Watchlist.ApplyUpdates | components/stock-ticker-page.tsx:31-33 | each chosen position holds the update of its prior value, and every other position holds the identical prior stock |
| Watchlist.Tick | components/stock-ticker-page.tsx:22-36 | a tick updates exactly min(k, n) distinct in-range positions, so between min(2, n) and min(6, n); the updated positions are the first distinct indices drawn, in the order drawn; it keeps length and order, leaves every other entry identical and updates each selected entry in place; an empty list stays empty |
| Watchlist.TickCompletes | components/stock-ticker-page.tsx:24-33 | a tick finishes whenever the draws cover enough distinct indices and supply one update draw per selected entry |
| Watchlist.TickPreservesConsistency | components/stock-ticker-page.tsx:22-36 | a tick keeps every stock consistent |
| Watchlist.NewStock | components/stock-ticker-page.tsx:45-55 | a new stock has the upper-cased symbol, a name defaulting to that symbol, price in [10, 510), prevClose = price, zero change and percent, direction `Flat`, and satisfies the invariant |
| Watchlist.AddStock | components/stock-ticker-page.tsx:44-57 | adding appends exactly one stock after the unchanged existing ones and keeps the invariant |
| Watchlist.RemoveStock | components/stock-ticker-page.tsx:59-61 | removing keeps exactly the entries whose id differs, with their multiplicities and in their original order; an absent id leaves the list unchanged; the invariant is kept |
| Watchlist.RemoveIdempotent | components/stock-ticker-page.tsx:60 | removing the same id twice is removing it once |
| Watchlist.HandleAddStock | components/watchlist-table.tsx:155-160 | a blank input leaves the list unchanged, and only a blank one does; otherwise the trimmed, upper-cased input is appended with its symbol as its name |
| Watchlist.Apply | components/stock-ticker-page.tsx:22-61 | any single tick, add or remove keeps a consistent list consistent; add and remove always complete |
| Watchlist.Run | components/stock-ticker-page.tsx:14-61 | a sequence of ticks, adds and removes keeps a consistent list consistent |
| Watchlist.SessionKeepsInvariant | components/stock-ticker-page.tsx:14-61 | from the seeded catalog, any session leaves every stock consistent: price > 0, prevClose > 0, change against the baseline, and percent and direction derived from it |
| Watchlist.SeedThenTick | components/stock-ticker-page.tsx:14-36 | a tick on the seeded catalog keeps its 15 entries and updates between two and six of them |
| Basics.Filter | components/stock-ticker-page.tsx:60 | `filter` keeps exactly the elements satisfying the predicate, with their multiplicities, as a subsequence of the input; if all pass, the input is returned |
| Overview.Insert | components/overview-panels.tsx:19 | inserting into a sorted list adds exactly one element and keeps it sorted |
| Overview.SortBy | components/overview-panels.tsx:19 | the sort is a permutation of its input, ordered by the ranking key |
| Overview.LeftOutRanksLower | components/overview-panels.tsx:19-20 | in a sorted list, an element not among the first m ranks no better than any of them |
| Overview.TakeOfSorted | components/overview-panels.tsx:20 | the first five of a sorted list are sorted, come from the list and rank no worse than anything cut off |
| Overview.Panel | components/overview-panels.tsx:17-20 | a panel has min(5, number of candidates) entries, sorted, drawn from the candidates, and every candidate left out ranks no better than every one kept |
| Overview.PanelOfFiltered | components/overview-panels.tsx:17-20 | a panel over a filtered list holds only stocks that pass the filter, is drawn from the whole list, and ranks every passing stock it leaves out no better |
| Overview.FilteredPanelKeeps | components/overview-panels.tsx:18 | any sub-multiset of the filtered list passes the filter |
| Overview.TopGainers | components/overview-panels.tsx:16-21 | min(5, number of `Up` stocks) entries, all `Up`, by changePercent non-increasing, drawn from the list; every `Up` stock left out has a percent no higher than every one shown |
| Overview.TopLosers | components/overview-panels.tsx:23-28 | min(5, number of `Down` stocks) entries, all `Down`, by changePercent non-decreasing, drawn from the list; every `Down` stock left out has a percent no lower than every one shown |
| Overview.MostActive | components/overview-panels.tsx:30-32 | min(5, n) entries by absolute change non-increasing, drawn from the list; every stock left out has an absolute change no larger than every one shown |
| Overview.PanelSigns | components/overview-panels.tsx:16-28 | over a consistent list every top gainer has a positive percent and every top loser a negative one |
| SplitFlap.Mount | components/split-flap-text.tsx:33-35 | a freshly mounted tile shows its target, is not flipping and has nothing left to animate |
| SplitFlap.Retarget | components/split-flap-text.tsx:37-58 | the same target leaves the tile unchanged; a different target starts an animation with totalFlips = baseFlips + 2 · index and records the target at once |
| SplitFlap.RandomGlyph | components/split-flap-text.tsx:45 | for a non-empty charset and a draw in [0, 1) the glyph picked belongs to the charset |
| SplitFlap.Step | components/split-flap-text.tsx:43-53 | each tick either shows a charset glyph and increments flipCount, which never exceeds totalFlips, or settles on the target and stops; the ticks left decrease by one |
| SplitFlap.Animate | components/split-flap-text.tsx:43-56 | running the interval for n ticks shortens the animation by n ticks, each flip shows a charset glyph, and a stopped tile stays as it is |
| SplitFlap.SettlesAfterBudget | components/split-flap-text.tsx:40-52 | after a target change the tile shows exactly baseFlips + 2 · index glyphs from the charset and then shows the target and stops |
| SplitFlap.DefaultFlipCount | components/split-flap-text.tsx:96 | with the default of six base flips the tile at index i flips 6 + 2i times |
| SplitFlap.WatchlistTilesSettle | components/watchlist-table.tsx:56-106 | each charset the watchlist passes (symbol, price, change) is non-empty, so with the default base flips a tile shows 6 + 2i glyphs of that charset and then its target |
| SplitFlap.SplitFlapText | components/split-flap-text.tsx:99-110 | one tile per character; tile i gets target value[i] and index i, and no two tiles share a key |
| SplitFlap.FindKey | components/split-flap-text.tsx:105 | finds the first mounted tile with a given key, or reports that none has it |
| SplitFlap.FindKeyFirst | components/split-flap-text.tsx:105 | the first position holding a key is exactly the one found |
| SplitFlap.Reconcile | components/split-flap-text.tsx:103-110 | a tile whose key survives keeps its state and sees the target-change effect, and a tile with a new key is mounted fresh; either way it is well formed |
| SplitFlap.Rerender | components/split-flap-text.tsx:99-110 | re-rendering with a new value yields one well-formed tile per character, with the props the renderer hands out |
| SplitFlap.KeyedRemountNeverAnimates | components/split-flap-text.tsx:103-110 | because the key includes the character, re-rendering a settled display leaves every tile freshly mounted on its character, so no animation starts |
| SplitFlap.Display | components/split-flap-text.tsx:99-110 | showing a sequence of values leaves one well-formed tile per character of the last value |
| SplitFlap.DisplayAlwaysSettled | components/split-flap-text.tsx:99-110 | however the value changes over time, the display shows the current value and no tile is animating |

## Left out

- The webhook route and its test script: network I/O to an external service, plus logging.
- The header's clock and its locale-specific date and time formatting.
- The badge and icon components: they only choose CSS classes and icons by direction.
- The watchlist table's sorting and filtering: these are delegated to an external table library whose source is not part of this model.
- The watchlist table's file-upload and "custom leads" handlers: they only set flags or log.
- Timer scheduling: the 3000-5000 ms tick interval, the tile's interval period and `clearInterval` are not modelled. Each interval callback is one application of a pure function.
- React state hooks, memoisation, staggered start delays and framer-motion animation are not modelled.
- IEEE-754 double rounding and `toFixed(2)` formatting: arithmetic is on exact reals.
- `crypto.randomUUID()`: ids are parameters, and their uniqueness is not assumed.
- StockData.SimulateStockUpdate: requires prevClose != 0, because the JavaScript results for division by zero (Infinity, NaN) are not modelled. Every stock the application can hold has prevClose > 0 (`Watchlist.SessionKeepsInvariant`).
- Watchlist.Tick: requires every prevClose != 0, for the same reason.
- Watchlist.Tick: the tick's loop runs until it has enough distinct indices. The model consumes a finite sequence of index draws and returns `None` if they run out first.
- Text.Upper: `toUpperCase` is modelled for ASCII letters only. Other characters are left unchanged, and special cases such as ligatures or non-ASCII letters are not modelled.
- SplitFlap.SplitFlapText: `split("")` splits into UTF-16 code units. The model splits into Dafny characters.
- SplitFlap.Step: requires a non-empty charset. With an empty charset the source would show `undefined` as a glyph.
- SplitFlap.Retarget: only a change of the target character re-runs the tile's effect. A change of charset, index, flip speed or base flips also re-runs it, cancelling a running animation without starting a new one when the target is unchanged; this is not modelled.
- Overview.SortBy: the sort is stable (equal keys keep their input order), but stability is not stated as a separate property.
- Overview.Panel: each panel sorts a copy of the list, so the list it is given is never reordered. In this model every list is an immutable value, so this holds by construction and is not stated.
