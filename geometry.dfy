/** The 60 x 60 grid of lands: coordinates, the four compass moves and the
    order in which a tick scans the lands. */
module Geometry {

  /** Width and height of the grid (`new Land[60][60]`). */
  const Size := 60

  datatype Point = Point(x: int, y: int)

  predicate InGrid(p: Point) {
    0 <= p.x < Size && 0 <= p.y < Size
  }

  /** Directions as the step numbers them: 1 north, 2 east, 3 south, 4 west
      (0, staying put, has no target). North is towards smaller y. */
  const North := 1
  const East := 2
  const South := 3
  const West := 4

  function Neighbour(p: Point, direction: int): (q: Point)
    requires North <= direction <= West
    ensures Abs(q.x - p.x) + Abs(q.y - p.y) == 1
  {
    if direction == North then Point(p.x, p.y - 1)
    else if direction == East then Point(p.x + 1, p.y)
    else if direction == South then Point(p.x, p.y + 1)
    else Point(p.x - 1, p.y)
  }

  function Abs(n: int): nat {
    if n < 0 then -n else n
  }

  /** A land and its four neighbours: at most one step apart. */
  predicate Near(p: Point, q: Point) {
    Abs(p.x - q.x) + Abs(p.y - q.y) <= 1
  }

  /** Position of a land in the tick's scan: x outer, y inner. */
  function ScanIndex(p: Point): int {
    p.x * Size + p.y
  }

  /** The land visited at position k of the scan. */
  function ScanPoint(k: nat): (p: Point)
    requires k < Size * Size
    ensures InGrid(p) && ScanIndex(p) == k
  {
    Point(k / Size, k % Size)
  }

  /** The scan visits every land exactly once. */
  lemma ScanIsBijective(p: Point)
    requires InGrid(p)
    ensures 0 <= ScanIndex(p) < Size * Size && ScanPoint(ScanIndex(p)) == p
  {
  }

  lemma ScanPointInjective(j: nat, k: nat)
    requires j < Size * Size && k < Size * Size && ScanPoint(j) == ScanPoint(k)
    ensures j == k
  {
  }

  /** A move east or south lands on a later land of the scan, a move north or
      west on an earlier one: an entity moving east or south is met again by
      the same tick's scan. */
  lemma MoveAndScanOrder(p: Point, direction: int)
    requires North <= direction <= West
    ensures direction == East || direction == South <==> ScanIndex(Neighbour(p, direction)) > ScanIndex(p)
  {
  }
}
