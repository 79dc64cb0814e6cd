# Four-leaf clover hunt: board layout and rounds, in Dafny

The game fills a board with three-leaf clovers and one four-leaf clover; the
player clicks the four-leaf one as fast as possible. This project models the
two pieces of logic in `src/FourLeafCloverGame.jsx`:

- **The board layout** (the layout effect and the `shuffle` helper). It shrinks
  the measured board by the padding. It picks a near-square grid of
  `cols = ceil(sqrt(count * w / h))` by `rows = ceil(count / cols)`. It lists
  the cells row by row and Fisher–Yates-shuffles them. It keeps the first
  `count` cells. For each kept cell it draws a size and a jittered position,
  then clamps the position to the board. Ids are `0..count-1`, and exactly one
  item is the four-leaf target.
- **The round state machine** (`start`, `reshuffle`, `clickClover`). It tracks
  the status (idle, playing, success), a round counter, the start time, the
  elapsed time and the best time.

Modules, one per component:

| file | module | models |
|---|---|---|
| random.dfy | `Random` | `Math.random` as an injected stream of draws in [0, 1); `rand`; `Math.floor(d * n)` |
| shuffle.dfy | `Shuffling` | `shuffle` |
| grid.dfy | `Grid` | column and row counts, cell size, row-major cell list |
| placement.dfy | `Placement` | one item per cell, clamping, marking the target |
| layout.dfy | `BoardLayout` | the whole layout effect |
| round.dfy | `Round` | round transitions as a pure step function over events |

Randomness is one `seq<real>` consumed in the program's order. The shuffle
takes `n - 1` draws for `n` cells. Each item then takes four: size, x, y and
rotation. The target index takes the last one. Clock readings (`Date.now`)
are `now` parameters. Geometry is exact `real` arithmetic.

Edge cases of the code, as the model treats them:

- The code only checks the outer size (line 188). Line 189 then floors each
  inner extent at 0, and a zero there breaks line 190. With a zero inner width
  and a positive inner height, `cols` is 0 and `rows` is infinite, so the cell
  loop at line 192 never ends. With a positive inner width and a zero inner
  height, `w / h` is infinite, so `rows` is 0, no items are placed, and the
  target lookup at line 201 throws. When both are zero, `w / h` is `NaN`, so
  `cols` and `rows` are `NaN`; the cell loop runs zero times and the lookup at
  line 201 throws. The board keeps a 3:2 aspect ratio (line 257), so a zero
  inner width comes with a zero inner height, and a throw is the outcome seen
  in practice. A `count` of 0 likewise leaves no items for that lookup. The
  model therefore requires a positive inner area and `count >= 1` whenever
  the outer check passes. When that check fails, the effect returns early and
  the previous items stay (`BoardLayout.Effect.Skipped`).
- The code never clamps `count` to the number of cells. It does not need to:
  `Grid.Partition` proves `rows * cols >= count`, so every layout holds
  exactly `count` items.
- `x >= pad` holds whenever the inner width is at least the item's size, and
  likewise `y >= pad` for the height; `Placement.Fits` states that. When the
  item is wider (taller) than the inner area, the clamp's upper bound lies
  below the padding and `x < pad` (`y < pad`); `Placement.CrowdedItemCrossesPad`
  states that.

## Model

| member | source | states |
|---|---|---|
| Random.UniformIndex | src/FourLeafCloverGame.jsx:23 | `Math.floor(d * n)` for a draw in [0,1) is an index below n, namely the one whose bucket [k/n, (k+1)/n) contains the draw; so each Fisher–Yates swap index satisfies 0 ≤ j ≤ i (the same operation picks the target at line 201) |
| Random.Rand | src/FourLeafCloverGame.jsx:19 | `rand(min, max)` lies in [min, max), or is min when the range is empty; the same formula gives each size at line 195 |
| Random.RandMonotone | src/FourLeafCloverGame.jsx:19 | a larger draw gives a strictly larger value, so distinct draws give distinct sizes |
| Shuffling.Shuffle | src/FourLeafCloverGame.jsx:20-27 | the shuffled copy has the input's length and multiset of elements (a permutation), contains exactly the input's elements, and keeps a duplicate-free input duplicate-free; every array access of the swaps is in bounds |
| Grid.CeilSqrt | src/FourLeafCloverGame.jsx:190 | `Math.ceil(Math.sqrt(x))` in exact arithmetic: the result squared reaches x, and one less squared falls short of x |
| Grid.CeilSqrtUnique | src/FourLeafCloverGame.jsx:190 | those two bounds determine the column count uniquely |
| Grid.CeilDiv | src/FourLeafCloverGame.jsx:190 | `Math.ceil(a / b)`: q·b covers a and (q−1)·b does not |
| Grid.Partition | src/FourLeafCloverGame.jsx:190-191 | for a positive inner area and count ≥ 1: at least one row and one column, rows·cols ≥ count (capacity), no row left empty, columns the ceiling of sqrt(count·w/h), and cells of positive size that tile the inner area exactly |
| Grid.TenItemsExample | src/FourLeafCloverGame.jsx:190-191 | a 268×168 inner area with 10 items gets 4 columns of 67 and 3 rows of 56 |
| Grid.EnumerateCells | src/FourLeafCloverGame.jsx:192 | the list has rows·cols cells, contains a cell iff it lies in the grid, and is strictly increasing in row-major order (so no cell appears twice) |
| Placement.Clamp | src/FourLeafCloverGame.jsx:197-198 | `Math.min(Math.max(v, lo), hi)` never exceeds hi, is at least lo when lo ≤ hi, returns v unchanged when v is already in [lo, hi], and is always one of v, lo or hi |
| Placement.Jitter | src/FourLeafCloverGame.jsx:197-198 | the unclamped position puts the item's centre in the 20%–80% band of its cell |
| Placement.PlaceItem | src/FourLeafCloverGame.jsx:195-199 | the item gets id i and is not the target; its size is in [minSize, maxSize); its box ends before the right and bottom padding, and starts after the left (top) padding whenever the inner width (height) is at least the size; an item the clamp did not move is centred in the middle 60% of its cell; rotation is in [−12, 12) |
| Placement.CrowdedItemCrossesPad | src/FourLeafCloverGame.jsx:197-198 | an item wider (taller) than the inner area ends up with x < pad (y < pad): the converse of the padding bound in PlaceItem's contract |
| Placement.PlaceAll | src/FourLeafCloverGame.jsx:194-200 | one item per chosen cell, with ids 0..n−1 in order, none of them the target; each has its size in range and its box ends before the right and bottom padding; it starts after the left (top) padding whenever the inner width (height) is at least its size; an item the clamp did not move along an axis is centred in the middle 60% of its own cell along that axis |
| Placement.MarkTarget | src/FourLeafCloverGame.jsx:201 | item t becomes the four-leaf clover and the reported target id is its id; every other item and every other field is unchanged |
| Placement.OnlyOneFour | src/FourLeafCloverGame.jsx:201 | when the flag marks exactly one index, the count of four-leaf clovers is 1 |
| BoardLayout.Inner | src/FourLeafCloverGame.jsx:189 | `Math.max(0, extent − 2·pad)`: never negative, and equal to the padded extent when that is positive |
| BoardLayout.LayoutEffect | src/FourLeafCloverGame.jsx:187-202 | the effect returns early exactly when the board is unmeasured. Otherwise: count items with ids 0..count−1; target id below count, and an item is the four-leaf clover iff its index is the target id; sizes in range; every box ends before the right and bottom padding, and starts after the left (top) padding whenever the inner width (height) is at least the item's size; each item in a grid cell of its own, no cell used twice, and centred in the middle 60% of that cell along any axis where the clamp left it alone |
| BoardLayout.ExactlyOneFourLeaf | src/FourLeafCloverGame.jsx:201 | a laid-out board holds exactly one four-leaf clover |
| Round.Min | src/FourLeafCloverGame.jsx:212 | `Math.min(b, spent)`: the result is no larger than either argument and is one of them |
| Round.InitialConsistent | src/FourLeafCloverGame.jsx:153-159 | the state before anything has happened is consistent, so with Round.RunConsistent every state reachable from it is |
| Round.Start | src/FourLeafCloverGame.jsx:206 | start puts the game in play, counts one more round, records the start time, zeroes the elapsed time, and keeps the best time and target |
| Round.Reshuffle | src/FourLeafCloverGame.jsx:207 | reshuffle moves the round counter by one and nothing else |
| Round.Click | src/FourLeafCloverGame.jsx:210-214 | a click while idle only starts a round (the hit is not registered); the click succeeds iff the game was playing and the id is the target's; a hit records the time spent, success and a best time no worse than before or than the time spent, and changes nothing else; a miss only changes the shake key; after success a click changes nothing |
| Round.Step | src/FourLeafCloverGame.jsx:204-213 | an event moves the round by at most one; only a new layout changes the target; only a click changes the best time; closing the success dialog returns to idle |
| Round.StepConsistent | src/FourLeafCloverGame.jsx:206-213 | each event keeps the game consistent: a won round has a best time no worse than its own, and a game in play or won has had at least one round |
| Round.RunConsistent | src/FourLeafCloverGame.jsx:206-213 | any sequence of events keeps the game consistent |
| Round.BestNeverWorsens | src/FourLeafCloverGame.jsx:212 | once recorded, the best time never increases, whatever events follow |
| Round.RoundNeverDecreases | src/FourLeafCloverGame.jsx:206-207 | the round counter never decreases over any sequence of events |
| Round.SuccessNeedsHit | src/FourLeafCloverGame.jsx:211-212 | success is reached only by clicking the target's id while playing |
| Round.HitIsFourLeaf | src/FourLeafCloverGame.jsx:201-212 | once a layout's target id is installed, a click during play on one of its items succeeds iff that item is the four-leaf clover |

## Left out

- Rendering, JSX, the portal modal, buttons, stat cards and CSS (lines 45–140, 216–363): presentation only. The modal's close button appears only as the `ModalClosed` event.
- `useMeasure`, `ResizeObserver`, `getBoundingClientRect` and the resize and scroll listeners: host plumbing. The board size enters as a `Board` value.
- React effect scheduling and dependency arrays: the layout effect is not re-run automatically on a round or count change. A new layout reaches the round state through the `LaidOut` event.
- The stopwatch interval and `Date.now` (lines 179–183): clocks are `now` parameters, and timer ticks of `elapsedMs` are not modelled.
- IEEE floating point, `Math.sqrt` and `Math.ceil` rounding, `NaN` and `Infinity`: the geometry is exact real arithmetic.
- The difficulty table and its `?? 120` fallback (lines 15, 185) and the `CONFIG` constants (lines 11–16): padding, count and size range are parameters.
- Asset URL resolution (lines 145–148): no logic.
- `tailwind.config.cjs`: build configuration.
- Determinism under an identical draw stream: not stated as a lemma. The layout is a method whose only inputs are its parameters.
- Shuffling.Shuffle: states that the result is a permutation of the input, not which permutation a given stream yields, nor that all permutations are equally likely (probability is not modelled).
- Random.UniformIndex: states the equal-width bucket a draw falls into, not a probability distribution.
