/** The layout effect of src/FourLeafCloverGame.jsx (lines 187–202): from the measured board, the item
    count, the size range and a stream of draws, a fresh set of clovers. */
module BoardLayout {
  import opened Random
  import opened Shuffling
  import opened Grid
  import opened Placement

  /** What one run of the effect does: return early and keep the previous
      items, or lay out a new board. */
  datatype Effect = Skipped | Laid(layout: Layout)

  /** `Math.max(0, extent - pad * 2)`: the extent left inside the padding. */
  function Inner(extent: real, pad: real): (v: real)
    ensures v >= 0.0
    ensures extent - 2.0 * pad > 0.0 ==> v == extent - 2.0 * pad
    ensures extent - 2.0 * pad <= 0.0 ==> v == 0.0
  {
    if extent - pad * 2.0 > 0.0 then extent - pad * 2.0 else 0.0
  }

  /** Line 188: the board has been measured with a positive size. */
  predicate Measured(b: Board) {
    b.width > 0.0 && b.height > 0.0
  }

  /** Room remains inside the padding along both axes. */
  predicate Roomy(b: Board) {
    Inner(b.width, b.pad) > 0.0 && Inner(b.height, b.pad) > 0.0
  }

  /** The grid laid over the board's inner area. */
  function BoardShape(b: Board, count: nat): Shape
    requires Roomy(b) && count >= 1
  {
    Partition(Inner(b.width, b.pad), Inner(b.height, b.pad), count)
  }

  /** Draws one layout consumes: the shuffle of every cell, four per item,
      and one for the target. */
  function DrawsNeeded(b: Board, count: nat): nat
    requires Roomy(b) && count >= 1
  {
    var g := BoardShape(b, count);
    ShuffleDraws(g.rows * g.cols) + 4 * count + 1
  }

  /** The promises one layout keeps: count items with ids 0..count-1 in
      order, exactly one four-leaf clover whose id is targetId, every size in
      range and every box inside the padding, and each item in its own cell
      of the grid, no cell used twice. */
  predicate WellFormed(l: Layout, chosen: seq<Cell>, b: Board, count: nat, s: SizeRange)
    requires Roomy(b) && count >= 1
  {
    var g := BoardShape(b, count);
    && |l.items| == count
    && |chosen| == count
    && l.targetId < count
    && (forall k :: 0 <= k < count ==> l.items[k].id == k)
    && (forall k :: 0 <= k < count ==> (l.items[k].isFour <==> k == l.targetId))
    && (forall k :: 0 <= k < count ==> SizeInRange(l.items[k], s) && Fits(l.items[k], b))
    && (forall k :: 0 <= k < count ==> InGrid(chosen[k], g.rows, g.cols))
    && (forall k :: 0 <= k < count ==> CentredInCell(l.items[k], chosen[k], g, b))
    && Distinct(chosen)
  }

  /** Lines 187–202. `chosen` are the cells the items were placed in, item k
      in cell chosen[k]. The draws are consumed in the program's order:
      shuffle, then size, x, y and rotation per item, then the target. */
  method LayoutEffect(b: Board, count: nat, s: SizeRange, draws: seq<real>)
    returns (e: Effect, chosen: seq<Cell>)
    requires s.min <= s.max
    requires ValidDraws(draws)
    requires Measured(b) ==> Roomy(b) && count >= 1 && |draws| >= DrawsNeeded(b, count)
    ensures e.Skipped? <==> !Measured(b)
    ensures e.Skipped? ==> chosen == []
    ensures e.Laid? ==> WellFormed(e.layout, chosen, b, count, s)
  {
    if !Measured(b) {
      return Skipped, [];
    }
    var g := BoardShape(b, count);
    var cells := EnumerateCells(g.rows, g.cols);
    assert Distinct(cells);
    var n := ShuffleDraws(|cells|);
    var shuffled := Shuffle(cells, draws[..n]);
    chosen := shuffled[..count];
    assert forall k :: 0 <= k < count ==> chosen[k] in cells;
    var next := PlaceAll(chosen, g, b, s, draws[n .. n + 4 * count]);
    var t := UniformIndex(draws[n + 4 * count], |next|);
    e := Laid(MarkTarget(next, t));
  }

  /** A laid-out board holds exactly one four-leaf clover. */
  lemma ExactlyOneFourLeaf(l: Layout, chosen: seq<Cell>, b: Board, count: nat, s: SizeRange)
    requires Roomy(b) && count >= 1
    requires WellFormed(l, chosen, b, count, s)
    ensures CountFour(l.items) == 1
  {
    OnlyOneFour(l.items, l.targetId);
  }
}
