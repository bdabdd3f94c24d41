/** Map data, cells and zones (GameServer/World/Zone/ZoneDefine.h, GameServer/World/WorldManager.cpp). */
module WorldMap {
  import opened SectorIds

  datatype ZoneType = Town | Pvp | Pve | Boss

  datatype ZonePos = ZonePos(minX: int, minY: int, maxX: int, maxY: int)

  datatype ZoneInfo = ZoneInfo(zoneType: ZoneType, worldPos: ZonePos)

  datatype GridIndex = GridIndex(x: int, y: int)

  datatype Vector = Vector(x: real, y: real)

  datatype MapData = MapData(gridSize: int, gridX: Int32, gridY: Int32, worldMinX: int, worldMinY: int,
                             zones: seq<ZoneInfo>)

  /** One zone of 100 by 100 cells. */
  const SMALL_MAP := MapData(1, 100, 100, 0, 0, [ZoneInfo(Town, ZonePos(0, 0, 100, 100))])

  /** How many cells a player sees in each direction. */
  const VISIBLE_RANGE: int := 20

  /** C++ conversion to an integer: toward zero. */
  function Trunc(r: real): int {
    if r >= 0.0 then r.Floor else -((-r).Floor)
  }

  function MakeGridIndex(m: MapData, pos: Vector): GridIndex
    requires m.gridSize > 0
  {
    GridIndex(Trunc((pos.x - m.worldMinX as real) / m.gridSize as real),
              Trunc((pos.y - m.worldMinY as real) / m.gridSize as real))
  }

  predicate IsValidGridIndex(m: MapData, g: GridIndex) {
    0 <= g.x < m.gridX && 0 <= g.y < m.gridY
  }

  function Abs(v: int): nat {
    if v >= 0 then v else -v
  }

  predicate IsInGridRange(g: GridIndex, target: GridIndex) {
    Abs(g.x - target.x) <= VISIBLE_RANGE && Abs(g.y - target.y) <= VISIBLE_RANGE
  }

  predicate Contains(z: ZonePos, pos: Vector) {
    z.minX as real <= pos.x < z.maxX as real && z.minY as real <= pos.y < z.maxY as real
  }

  /** The visible square around `pos` overlaps the zone's rectangle. */
  predicate IsInRange(pos: Vector, z: ZonePos, gridSize: int) {
    var range := (VISIBLE_RANGE * gridSize) as real;
    && pos.x - range < z.maxX as real && pos.x + range > z.minX as real
    && pos.y - range < z.maxY as real && pos.y + range > z.minY as real
  }

  /** The zone a position belongs to: the first that contains it, Town when none does. */
  function ZoneAt(zones: seq<ZoneInfo>, pos: Vector): ZoneType {
    if zones == [] then Town
    else if Contains(zones[0].worldPos, pos) then zones[0].zoneType
    else ZoneAt(zones[1..], pos)
  }

  lemma {:induction false} ZoneAtContains(zones: seq<ZoneInfo>, pos: Vector, i: nat)
    requires i < |zones| && Contains(zones[i].worldPos, pos)
    ensures exists j :: 0 <= j <= i && zones[j].zoneType == ZoneAt(zones, pos) && Contains(zones[j].worldPos, pos)
    decreases |zones|
  {
    if !Contains(zones[0].worldPos, pos) {
      ZoneAtContains(zones[1..], pos, i - 1);
      var rest := zones[1..];
      var j :| 0 <= j <= i - 1 && rest[j].zoneType == ZoneAt(rest, pos) && Contains(rest[j].worldPos, pos);
      assert zones[j + 1] == zones[1..][j];
    } else {
      assert zones[0].zoneType == ZoneAt(zones, pos);
    }
  }

  method GetZoneByPosition(m: MapData, pos: Vector) returns (zoneType: ZoneType)
    ensures zoneType == ZoneAt(m.zones, pos)
  {
    for i := 0 to |m.zones|
      invariant ZoneAt(m.zones[i..], pos) == ZoneAt(m.zones, pos)
    {
      assert m.zones[i..][1..] == m.zones[i + 1..];
      var zonePos := m.zones[i].worldPos;
      if Contains(zonePos, pos) {
        return m.zones[i].zoneType;
      }
    }
    return Town;
  }

  /** A position in no zone belongs to Town. */
  lemma {:induction false} ZoneAtDefault(zones: seq<ZoneInfo>, pos: Vector)
    requires forall i :: 0 <= i < |zones| ==> !Contains(zones[i].worldPos, pos)
    ensures ZoneAt(zones, pos) == Town
    decreases |zones|
  {
    if zones != [] {
      ZoneAtDefault(zones[1..], pos);
    }
  }

  /** Zones that share a border share no position, and leave none out: a rectangle cut in two at x
      has each of its positions in exactly one part. */
  lemma CutZone(z: ZonePos, x: int, pos: Vector)
    requires z.minX <= x <= z.maxX
    ensures var left, right := z.(maxX := x), z.(minX := x);
            && (Contains(z, pos) <==> Contains(left, pos) || Contains(right, pos))
            && !(Contains(left, pos) && Contains(right, pos))
            && (z.minX < z.maxX && z.minY < z.maxY ==> Contains(z, Vector(z.minX as real, z.minY as real)))
  {
  }

  // ---- cells ----

  /** The cell of a position on one axis. Below the origin cells are counted toward it, so cell 0
      spans both sides of the origin. */
  lemma CellOnAxis(v: real, min: int, size: int, k: int)
    requires size > 0
    ensures Trunc((v - min as real) / size as real) == k <==>
              if k > 0 then (min + k * size) as real <= v < (min + (k + 1) * size) as real
              else if k == 0 then (min - size) as real < v < (min + size) as real
              else (min + (k - 1) * size) as real < v <= (min + k * size) as real
  {
    var g := size as real;
    var q := (v - min as real) / g;
    assert q * g == v - min as real;
    ScaledBound(k - 1, q, v, min, size);
    ScaledBound(k, q, v, min, size);
    ScaledBound(k + 1, q, v, min, size);
    TruncIff(q, k);
  }

  lemma TruncIff(q: real, k: int)
    ensures Trunc(q) == k <==>
              if k > 0 then k as real <= q < (k + 1) as real
              else if k == 0 then -1.0 < q < 1.0
              else (k - 1) as real < q <= k as real
  {
  }

  lemma ScaledBound(n: int, q: real, v: real, min: int, size: int)
    requires size > 0 && q * size as real == v - min as real
    ensures n as real <= q <==> (min + n * size) as real <= v
    ensures q <= n as real <==> v <= (min + n * size) as real
  {
    var g := size as real;
    assert (n * size) as real == n as real * g;
    if n as real <= q {
      ScaleMonotone(n as real, q, g);
    }
    if q <= n as real {
      ScaleMonotone(q, n as real, g);
    }
    if n as real < q {
      ScaleStrict(n as real, q, g);
    }
    if q < n as real {
      ScaleStrict(q, n as real, g);
    }
  }

  lemma ScaleStrict(a: real, b: real, g: real)
    requires g > 0.0 && a < b
    ensures a * g < b * g
  {
  }

  /** A position at or past the map's origin. */
  predicate PastOrigin(m: MapData, pos: Vector) {
    pos.x >= m.worldMinX as real && pos.y >= m.worldMinY as real
  }

  /** At or past the origin, a position lies in its cell. */
  lemma CellHoldsPosition(m: MapData, pos: Vector)
    requires m.gridSize > 0 && PastOrigin(m, pos)
    ensures var g := MakeGridIndex(m, pos);
            && g.x >= 0 && g.y >= 0
            && (m.worldMinX + g.x * m.gridSize) as real <= pos.x < (m.worldMinX + (g.x + 1) * m.gridSize) as real
            && (m.worldMinY + g.y * m.gridSize) as real <= pos.y < (m.worldMinY + (g.y + 1) * m.gridSize) as real
  {
    var g := MakeGridIndex(m, pos);
    CellOnAxis(pos.x, m.worldMinX, m.gridSize, g.x);
    CellOnAxis(pos.y, m.worldMinY, m.gridSize, g.y);
    NotBelow(m.worldMinX, m.gridSize, g.x, pos.x);
    NotBelow(m.worldMinY, m.gridSize, g.y, pos.y);
  }

  lemma NotBelow(min: int, size: int, k: int, v: real)
    requires size > 0 && v >= min as real
    requires k < 0 ==> v <= (min + k * size) as real
    ensures k >= 0
  {
    if k < 0 {
      Multiples(size, k, -1);
    }
  }

  /** On one axis: the position is less than one cell below the origin, or at or past it and below
      the far edge. */
  predicate OnAxis(v: real, min: int, size: int, cells: int) {
    cells > 0 && (min - size) as real < v < (min + cells * size) as real
  }

  /** The cell of a position is on the map exactly when the position is between the map's edges, or
      less than one cell below the near ones. */
  lemma ValidCellIff(m: MapData, pos: Vector)
    requires m.gridSize > 0
    ensures IsValidGridIndex(m, MakeGridIndex(m, pos)) <==>
              OnAxis(pos.x, m.worldMinX, m.gridSize, m.gridX) && OnAxis(pos.y, m.worldMinY, m.gridSize, m.gridY)
  {
    ValidOnAxisIff(pos.x, m.worldMinX, m.gridSize, m.gridX);
    ValidOnAxisIff(pos.y, m.worldMinY, m.gridSize, m.gridY);
  }

  /** Between the map's edges. */
  predicate OnMap(m: MapData, pos: Vector) {
    && m.worldMinX as real <= pos.x < (m.worldMinX + m.gridX * m.gridSize) as real
    && m.worldMinY as real <= pos.y < (m.worldMinY + m.gridY * m.gridSize) as real
  }

  /** From the origin on, the cell is on the map exactly when the position is. */
  lemma ValidPastOriginIff(m: MapData, pos: Vector)
    requires m.gridSize > 0 && PastOrigin(m, pos)
    ensures IsValidGridIndex(m, MakeGridIndex(m, pos)) <==> OnMap(m, pos)
  {
    ValidCellIff(m, pos);
    CellsNeeded(m.worldMinX, m.gridSize, m.gridX);
    CellsNeeded(m.worldMinY, m.gridSize, m.gridY);
  }

  lemma CellsNeeded(min: int, size: int, cells: int)
    requires size > 0
    ensures min < min + cells * size <==> cells > 0
  {
    if cells > 0 {
      Multiples(size, 1, cells);
    } else {
      Multiples(size, cells, 0);
    }
  }

  /** On the server's map, a player that spawns in Town is put on the map. */
  lemma TownSpawnCell(zones: seq<ZoneInfo>)
    ensures var m := MapData(100, 267, 267, 16796, 16796, zones);
            MakeGridIndex(m, Vector(20130.0, 33468.0)) == GridIndex(33, 166)
  {
    CellOnAxis(20130.0, 16796, 100, 33);
    CellOnAxis(33468.0, 16796, 100, 166);
  }

  lemma ValidOnAxisIff(v: real, min: int, size: int, cells: int)
    requires size > 0
    ensures 0 <= Trunc((v - min as real) / size as real) < cells <==> OnAxis(v, min, size, cells)
  {
    var k := Trunc((v - min as real) / size as real);
    CellOnAxis(v, min, size, k);
    if k >= cells {
      Multiples(size, cells, k);
    } else {
      Multiples(size, k + 1, cells);
    }
    if k < 0 {
      Multiples(size, k, -1);
    } else {
      Multiples(size, 0, k);
    }
  }

  lemma Multiples(size: int, a: int, b: int)
    requires size > 0 && a <= b
    ensures a * size <= b * size
  {
  }

  // ---- distances ----

  /** Truncation toward zero never stretches a distance past a whole bound. */
  lemma TruncKeepsDistance(a: real, b: real, range: nat)
    requires -(range as real) < a - b < range as real
    ensures Abs(Trunc(a) - Trunc(b)) <= range
  {
  }

  lemma QuotientDistance(a: real, b: real, g: real, range: real)
    requires g > 0.0 && -(range * g) < a - b < range * g
    ensures -range < a / g - b / g < range
  {
    var q, r := a / g, b / g;
    assert q * g == a && r * g == b;
    assert (q - r) * g == a - b;
    if q - r >= range {
      ScaleMonotone(range, q - r, g);
    }
    if r - q >= range {
      ScaleMonotone(range, r - q, g);
    }
  }

  lemma ScaleMonotone(a: real, b: real, g: real)
    requires g > 0.0 && a <= b
    ensures a * g <= b * g
  {
  }

  ghost predicate Near(m: MapData, pos: Vector, target: Vector) {
    var range := (VISIBLE_RANGE * m.gridSize) as real;
    -range < target.x - pos.x < range && -range < target.y - pos.y < range
  }

  /** Positions strictly closer than the visible range on both axes lie in cells at most that
      many apart. */
  lemma NearInGridRange(m: MapData, pos: Vector, target: Vector)
    requires m.gridSize > 0 && Near(m, pos, target)
    ensures IsInGridRange(MakeGridIndex(m, pos), MakeGridIndex(m, target))
  {
    var g := m.gridSize as real;
    var fromX, toX := pos.x - m.worldMinX as real, target.x - m.worldMinX as real;
    var fromY, toY := pos.y - m.worldMinY as real, target.y - m.worldMinY as real;
    assert (VISIBLE_RANGE * m.gridSize) as real == VISIBLE_RANGE as real * g;
    QuotientDistance(fromX, toX, g, VISIBLE_RANGE as real);
    QuotientDistance(fromY, toY, g, VISIBLE_RANGE as real);
    TruncKeepsDistance(fromX / g, toX / g, VISIBLE_RANGE);
    TruncKeepsDistance(fromY / g, toY / g, VISIBLE_RANGE);
  }

  lemma TruncSpread(a: real, b: real, range: nat)
    requires Abs(Trunc(a) - Trunc(b)) <= range
    ensures -((range + 2) as real) < a - b < (range + 2) as real
    ensures a >= 0.0 && b >= 0.0 ==> -((range + 1) as real) < a - b < (range + 1) as real
  {
  }

  /** Less than `cells` cells' width apart on both axes. */
  ghost predicate Within(m: MapData, pos: Vector, target: Vector, cells: int) {
    var range := (cells * m.gridSize) as real;
    -range < target.x - pos.x < range && -range < target.y - pos.y < range
  }

  /** How far apart two positions on one axis can be whose cells are in range. */
  ghost predicate SpreadOk(v: real, w: real, min: int, size: int, range: nat) {
    var far, farther := ((range + 1) * size) as real, ((range + 2) * size) as real;
    && -farther < w - v < farther
    && (v >= min as real && w >= min as real ==> -far < w - v < far)
  }

  lemma SpreadOnAxis(v: real, w: real, min: int, size: int, a: real, b: real, range: nat)
    requires size > 0 && a * size as real == v - min as real && b * size as real == w - min as real
    requires Abs(Trunc(a) - Trunc(b)) <= range
    ensures SpreadOk(v, w, min, size, range)
  {
    TruncSpread(a, b, range);
    SpreadScales(v, w, min, size, a, b, range + 2);
    if v >= min as real && w >= min as real {
      ScaledBound(0, a, v, min, size);
      ScaledBound(0, b, w, min, size);
      SpreadScales(v, w, min, size, a, b, range + 1);
    }
  }

  lemma Divided(v: real, g: real)
    requires g > 0.0
    ensures v / g * g == v
  {
  }

  lemma SpreadScales(v: real, w: real, min: int, size: int, a: real, b: real, n: int)
    requires size > 0 && a * size as real == v - min as real && b * size as real == w - min as real
    requires -(n as real) < a - b < n as real
    ensures -((n * size) as real) < w - v < (n * size) as real
  {
    var g := size as real;
    ScaleStrict(a - b, n as real, g);
    ScaleStrict(-(n as real), a - b, g);
    assert (a - b) * g == v - w;
    assert (n * size) as real == n as real * g;
  }

  lemma CellSpread(v: real, w: real, min: int, size: int, range: nat)
    requires size > 0
    requires Abs(Trunc((v - min as real) / size as real) - Trunc((w - min as real) / size as real)) <= range
    ensures SpreadOk(v, w, min, size, range)
  {
    Divided(v - min as real, size as real);
    Divided(w - min as real, size as real);
    SpreadOnAxis(v, w, min, size, (v - min as real) / size as real, (w - min as real) / size as real, range);
  }

  /** Cells in range are of positions less than 21 cells' width apart, or less than 22 when one is
      below the origin, where a cell can span two cells' width. */
  lemma InGridRangeIsNear(m: MapData, pos: Vector, target: Vector)
    requires m.gridSize > 0 && IsInGridRange(MakeGridIndex(m, pos), MakeGridIndex(m, target))
    ensures Within(m, pos, target, VISIBLE_RANGE + 2)
    ensures PastOrigin(m, pos) && PastOrigin(m, target) ==> Within(m, pos, target, VISIBLE_RANGE + 1)
  {
    CellSpread(pos.x, target.x, m.worldMinX, m.gridSize, VISIBLE_RANGE);
    CellSpread(pos.y, target.y, m.worldMinY, m.gridSize, VISIBLE_RANGE);
  }

  /** The visible square overlaps a zone exactly when some position of the zone is near. */
  lemma ZoneInRangeIff(m: MapData, pos: Vector, z: ZonePos)
    requires m.gridSize > 0 && z.minX < z.maxX && z.minY < z.maxY
    ensures IsInRange(pos, z, m.gridSize) <==> exists target :: Contains(z, target) && Near(m, pos, target)
  {
    var range := (VISIBLE_RANGE * m.gridSize) as real;
    if IsInRange(pos, z, m.gridSize) {
      var x := NearestOnAxis(pos.x, z.minX, z.maxX, range);
      var y := NearestOnAxis(pos.y, z.minY, z.maxY, range);
      assert Contains(z, Vector(x, y)) && Near(m, pos, Vector(x, y));
    }
  }

  lemma NearestOnAxis(v: real, min: int, max: int, range: real) returns (t: real)
    requires min < max && range > 0.0 && v - range < max as real && v + range > min as real
    ensures min as real <= t < max as real && -range < t - v < range
  {
    if v < min as real {
      t := min as real;
    } else if v < max as real {
      t := v;
    } else {
      var low := if v - range < min as real then min as real else v - range;
      t := (low + max as real) / 2.0;
    }
  }

  /** A zone that holds a near position overlaps the visible square. */
  lemma NearZoneInRange(m: MapData, pos: Vector, target: Vector, z: ZonePos)
    requires Near(m, pos, target) && Contains(z, target)
    ensures IsInRange(pos, z, m.gridSize)
  {
  }
}
