/** Placing one item per chosen cell (src/FourLeafCloverGame.jsx, lines 194–200) and marking the
    four-leaf target (line 201). */
module Placement {
  import opened Random
  import opened Grid

  /** The measured board and the padding kept clear along each edge. */
  datatype Board = Board(width: real, height: real, pad: real)

  /** The range an item's size is drawn from. */
  datatype SizeRange = SizeRange(min: real, max: real)

  /** A clover on the board: top-left corner, size, whether it is the
      four-leaf one, and a cosmetic rotation in degrees. */
  datatype Item = Item(id: nat, x: real, y: real, size: real, isFour: bool, rot: real)

  /** The items of one layout and the id of its four-leaf clover. */
  datatype Layout = Layout(items: seq<Item>, targetId: nat)

  /** `Math.min(Math.max(v, lo), hi)`: never above hi, never below lo unless
      the interval is empty, and v itself whenever v already lies in it. */
  function Clamp(v: real, lo: real, hi: real): (r: real)
    ensures r <= hi
    ensures lo <= hi ==> lo <= r
    ensures lo <= v <= hi ==> r == v
    ensures r == v || r == lo || r == hi
  {
    var m := if v > lo then v else lo;
    if m < hi then m else hi
  }

  /** Line 197–198 before clamping: the position along one axis that puts
      the item's centre in the middle 60% of its cell. */
  function Jitter(origin: real, cell: real, d: real, size: real): (p: real)
    requires 0.0 <= d < 1.0
    requires cell > 0.0
    ensures origin + 0.2 * cell <= p + size / 2.0 < origin + 0.8 * cell
  {
    var band := cell * 0.6;
    var offset := d * band;
    ScaleBelow(d, band);
    assert 0.0 <= offset < band;
    origin + offset + cell * 0.2 - size / 2.0
  }

  /** Drawn size lies in [min, max), or is min when the range is empty. */
  predicate SizeInRange(it: Item, s: SizeRange) {
    s.min <= it.size <= s.max && (s.min < s.max ==> it.size < s.max)
  }

  /** The item's box ends before the right and bottom padding; it starts
      after the left and top padding whenever the inner area is at least as
      wide (tall) as the item. */
  predicate Fits(it: Item, b: Board) {
    && it.x + it.size <= b.width - b.pad
    && it.y + it.size <= b.height - b.pad
    && (b.width - 2.0 * b.pad >= it.size ==> b.pad <= it.x)
    && (b.height - 2.0 * b.pad >= it.size ==> b.pad <= it.y)
  }

  /** An item the clamp left alone along an axis has its centre in the
      middle 60% of its cell along that axis. */
  predicate CentredInCell(it: Item, c: Cell, g: Shape, b: Board) {
    var x0 := b.pad + (c.col as real) * g.cellW;
    var y0 := b.pad + (c.row as real) * g.cellH;
    && (b.pad < it.x < b.width - b.pad - it.size ==>
          x0 + 0.2 * g.cellW <= it.x + it.size / 2.0 < x0 + 0.8 * g.cellW)
    && (b.pad < it.y < b.height - b.pad - it.size ==>
          y0 + 0.2 * g.cellH <= it.y + it.size / 2.0 < y0 + 0.8 * g.cellH)
  }

  /** Lines 195–199: item i in cell c, from four draws (size, x, y, rotation). */
  function PlaceItem(c: Cell, i: nat, g: Shape, b: Board, s: SizeRange, d: seq<real>): (it: Item)
    requires |d| == 4 && ValidDraws(d)
    requires g.cellW > 0.0 && g.cellH > 0.0
    requires s.min <= s.max
    ensures it.id == i && !it.isFour
    ensures SizeInRange(it, s)
    ensures Fits(it, b)
    ensures CentredInCell(it, c, g, b)
    ensures -12.0 <= it.rot < 12.0
  {
    var size := Rand(d[0], s.min, s.max);
    var x0 := b.pad + (c.col as real) * g.cellW;
    var y0 := b.pad + (c.row as real) * g.cellH;
    var x := Clamp(Jitter(x0, g.cellW, d[1], size), b.pad, b.width - b.pad - size);
    var y := Clamp(Jitter(y0, g.cellH, d[2], size), b.pad, b.height - b.pad - size);
    Item(i, x, y, size, false, Rand(d[3], -12.0, 12.0))
  }

  /** The converse of the padding half of Fits: an item wider (taller) than
      the inner area is pushed past the left (top) padding by the clamp. */
  lemma CrowdedItemCrossesPad(c: Cell, i: nat, g: Shape, b: Board, s: SizeRange, d: seq<real>)
    requires |d| == 4 && ValidDraws(d)
    requires g.cellW > 0.0 && g.cellH > 0.0
    requires s.min <= s.max
    ensures var it := PlaceItem(c, i, g, b, s, d);
            && (b.width - 2.0 * b.pad < it.size ==> it.x < b.pad)
            && (b.height - 2.0 * b.pad < it.size ==> it.y < b.pad)
  {
  }

  /** Lines 194–200: `chosen.map((cell, i) => …)`, four draws per item. */
  function PlaceAll(chosen: seq<Cell>, g: Shape, b: Board, s: SizeRange, d: seq<real>): (items: seq<Item>)
    requires |d| == 4 * |chosen| && ValidDraws(d)
    requires g.cellW > 0.0 && g.cellH > 0.0
    requires s.min <= s.max
    ensures |items| == |chosen|
    ensures forall k :: 0 <= k < |items| ==> items[k].id == k && !items[k].isFour
    ensures forall k :: 0 <= k < |items| ==> SizeInRange(items[k], s) && Fits(items[k], b)
    ensures forall k :: 0 <= k < |items| ==> CentredInCell(items[k], chosen[k], g, b)
  {
    seq(|chosen|, k requires 0 <= k < |chosen| => PlaceItem(chosen[k], k, g, b, s, d[4 * k .. 4 * k + 4]))
  }

  /** Line 201: flags item t as the four-leaf clover and reports its id; every
      other item, and every other field of item t, is unchanged. */
  function MarkTarget(items: seq<Item>, t: nat): (l: Layout)
    requires t < |items|
    ensures |l.items| == |items|
    ensures l.targetId == items[t].id
    ensures l.items[t].isFour
    ensures forall k :: 0 <= k < |items| && k != t ==> l.items[k] == items[k]
    ensures l.items[t] == items[t].(isFour := true)
  {
    Layout(items[t := items[t].(isFour := true)], items[t].id)
  }

  /** Number of four-leaf clovers among the items. */
  function CountFour(items: seq<Item>): nat
    decreases |items|
  {
    if |items| == 0 then 0
    else CountFour(items[..|items| - 1]) + (if items[|items| - 1].isFour then 1 else 0)
  }

  /** When the flag marks exactly index t, the items hold exactly one
      four-leaf clover. */
  lemma {:induction false} OnlyOneFour(items: seq<Item>, t: nat)
    requires t < |items|
    requires forall k :: 0 <= k < |items| ==> (items[k].isFour <==> k == t)
    ensures CountFour(items) == 1
  {
    FourBefore(items, t, |items|);
    assert items[..|items|] == items;
  }

  /** Among the first n items, the count is 1 once t has been passed. */
  lemma {:induction false} FourBefore(items: seq<Item>, t: nat, n: nat)
    requires n <= |items|
    requires forall k :: 0 <= k < |items| ==> (items[k].isFour <==> k == t)
    ensures CountFour(items[..n]) == (if t < n then 1 else 0)
    decreases n
  {
    if n > 0 {
      assert items[..n][..n - 1] == items[..n - 1];
      FourBefore(items, t, n - 1);
    }
  }
}
