/** Coordinate batching for the spatial queries (`batch_coordinates` in
    get_blrindus_data.py): points are taken five at a time (the default
    `batch_size`) and each group
    yields its bounding envelope widened by 100 on every side. Coordinates
    are integers here. */
module Batching {

  const Margin: int := 100

  datatype Point = Point(x: int, y: int)

  datatype Envelope = Envelope(xmin: int, ymin: int, xmax: int, ymax: int)

  /** `min(c["x"] for c in batch)`: a lower bound attained by some point. */
  function MinX(batch: seq<Point>): (m: int)
    requires |batch| > 0
    ensures forall p :: p in batch ==> m <= p.x
    ensures exists p :: p in batch && m == p.x
  {
    if |batch| == 1 then batch[0].x
    else
      var rest := MinX(batch[1..]);
      assert forall p :: p in batch[1..] ==> p in batch;
      if batch[0].x <= rest then batch[0].x else rest
  }

  function MaxX(batch: seq<Point>): (m: int)
    requires |batch| > 0
    ensures forall p :: p in batch ==> p.x <= m
    ensures exists p :: p in batch && m == p.x
  {
    if |batch| == 1 then batch[0].x
    else
      var rest := MaxX(batch[1..]);
      assert forall p :: p in batch[1..] ==> p in batch;
      if batch[0].x >= rest then batch[0].x else rest
  }

  function MinY(batch: seq<Point>): (m: int)
    requires |batch| > 0
    ensures forall p :: p in batch ==> m <= p.y
    ensures exists p :: p in batch && m == p.y
  {
    if |batch| == 1 then batch[0].y
    else
      var rest := MinY(batch[1..]);
      assert forall p :: p in batch[1..] ==> p in batch;
      if batch[0].y <= rest then batch[0].y else rest
  }

  function MaxY(batch: seq<Point>): (m: int)
    requires |batch| > 0
    ensures forall p :: p in batch ==> p.y <= m
    ensures exists p :: p in batch && m == p.y
  {
    if |batch| == 1 then batch[0].y
    else
      var rest := MaxY(batch[1..]);
      assert forall p :: p in batch[1..] ==> p in batch;
      if batch[0].y >= rest then batch[0].y else rest
  }

  /** The widened bounding envelope of one non-empty group. */
  function EnvelopeOf(batch: seq<Point>): (e: Envelope)
    requires |batch| > 0
    ensures forall p :: p in batch ==>
      e.xmin + Margin <= p.x <= e.xmax - Margin && e.ymin + Margin <= p.y <= e.ymax - Margin
  {
    Envelope(MinX(batch) - Margin, MinY(batch) - Margin, MaxX(batch) + Margin, MaxY(batch) + Margin)
  }

  /** `coords[i:i + 5]` for i = 5k: group k of the input, 1 to 5 points,
      full unless it is the last one. */
  function Chunk(coords: seq<Point>, k: nat): (c: seq<Point>)
    requires 5 * k < |coords|
    ensures 0 < |c| <= 5
    ensures 5 * k + |c| <= |coords|
    ensures 5 * k + |c| == |coords| || |c| == 5
    ensures forall t :: 0 <= t < |c| ==> c[t] == coords[5 * k + t]
  {
    coords[5 * k .. if 5 * k + 5 <= |coords| then 5 * k + 5 else |coords|]
  }

  /** The groups `range(0, len(coords), 5)` walks through, in order. */
  function Groups(coords: seq<Point>): (g: seq<seq<Point>>)
    ensures |g| == (|coords| + 4) / 5
  {
    seq((|coords| + 4) / 5, k requires 0 <= k < (|coords| + 4) / 5 => Chunk(coords, k))
  }

  /** The envelopes `batch_coordinates` yields, in order, one per group; the
      progress bar's total `(len(coordinates) + 4) // 5` is their number. */
  function Batches(coords: seq<Point>): (r: seq<Envelope>)
    ensures |r| == (|coords| + 4) / 5
  {
    var g := Groups(coords);
    seq(|g|, k requires 0 <= k < |g| => EnvelopeOf(g[k]))
  }

  /** Joins groups back into one sequence. */
  function Flatten(groups: seq<seq<Point>>): seq<Point>
  {
    if groups == [] then [] else groups[0] + Flatten(groups[1..])
  }

  /** The groups split the input: taken together, in order, they are the
      input, so every point is in exactly one batch. */
  lemma {:induction false} GroupsPartition(coords: seq<Point>)
    ensures Flatten(Groups(coords)) == coords
    decreases |coords|
  {
    var g := Groups(coords);
    if coords == [] {
    } else if |coords| <= 5 {
      assert |g| == 1 && g[0] == Chunk(coords, 0) == coords;
      assert Flatten(g[1..]) == [];
    } else {
      var rest := coords[5..];
      GroupsPartition(rest);
      assert g[0] == coords[..5];
      assert g[1..] == Groups(rest) by {
        forall k | 0 <= k < |Groups(rest)|
          ensures g[1..][k] == Groups(rest)[k]
        {
          assert g[k + 1] == Chunk(coords, k + 1);
        }
      }
      assert coords == coords[..5] + rest;
    }
  }

  /** Every point of the k-th chunk lies inside the k-th envelope, at least
      100 units from each side. */
  lemma BatchCoversChunk(coords: seq<Point>, k: nat, j: nat)
    requires 5 * k <= j < |coords| && j < 5 * k + 5
    ensures k < |Batches(coords)|
    ensures var e := Batches(coords)[k];
      e.xmin + Margin <= coords[j].x <= e.xmax - Margin &&
      e.ymin + Margin <= coords[j].y <= e.ymax - Margin
  {
    assert coords[j] == Chunk(coords, k)[j - 5 * k];
  }

  /** The envelope is tight: each of its four sides is exactly 100 units
      from some point of the chunk. */
  lemma BatchIsTight(coords: seq<Point>, k: nat)
    requires 5 * k < |coords|
    ensures k < |Batches(coords)|
    ensures var e := Batches(coords)[k];
      (exists p :: p in Chunk(coords, k) && p.x == e.xmin + Margin) &&
      (exists p :: p in Chunk(coords, k) && p.x == e.xmax - Margin) &&
      (exists p :: p in Chunk(coords, k) && p.y == e.ymin + Margin) &&
      (exists p :: p in Chunk(coords, k) && p.y == e.ymax - Margin)
  {
    assert Batches(coords)[k] == EnvelopeOf(Chunk(coords, k));
  }
}
