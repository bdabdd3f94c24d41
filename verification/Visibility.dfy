/** Which sectors and zones a player at a given position looks into, and why that is enough
    (GameServer/World/WorldManager.cpp). */
module Visibility {
  import opened SectorIds
  import opened WorldMap
  import opened SectorIndex
  import opened Sequences

  function Max(a: int, b: int): int {
    if a >= b then a else b
  }

  function Min(a: int, b: int): int {
    if a <= b then a else b
  }

  function FirstSector(g: int): nat {
    TruncDiv(Max(0, g - VISIBLE_RANGE), SECTOR_SIZE)
  }

  function LastSector(g: int, cells: Int32): (last: int)
    ensures last < 0x8000_0000
  {
    TruncDiv(Min(cells, g + VISIBLE_RANGE), SECTOR_SIZE)
  }

  /** A sector of the rectangle around the cell `g`. */
  ghost predicate VisibleSector(m: MapData, g: GridIndex, x: int, y: int) {
    FirstSector(g.x) <= x <= LastSector(g.x, m.gridX) && FirstSector(g.y) <= y <= LastSector(g.y, m.gridY)
  }

  ghost predicate VisibleSectorId(m: MapData, g: GridIndex, id: int) {
    exists x: Int32, y: Int32 :: VisibleSector(m, g, x, y) && id == SectorId(x, y)
  }

  ghost function VisibleIds(m: MapData, g: GridIndex): iset<int> {
    iset id | VisibleSectorId(m, g, id)
  }

  ghost predicate VisibleZone(m: MapData, pos: Vector, z: ZoneType) {
    || z == ZoneAt(m.zones, pos)
    || exists i :: 0 <= i < |m.zones| && m.zones[i].zoneType == z && IsInRange(pos, m.zones[i].worldPos, m.gridSize)
  }

  /** A bucket whose zone and sector are looked into from `pos`. */
  ghost predicate VisibleBucket(m: MapData, pos: Vector, b: Bucket)
    requires m.gridSize > 0
  {
    b.In? && VisibleZone(m, pos, b.zone) && VisibleSectorId(m, MakeGridIndex(m, pos), b.id)
  }

  lemma CellInSectorRange(g: int, cell: int, cells: Int32)
    requires 0 <= cell < cells && Abs(g - cell) <= VISIBLE_RANGE
    ensures FirstSector(g) <= TruncDiv(cell, SECTOR_SIZE) <= LastSector(g, cells)
  {
  }

  /** Every cell in range lies in an enumerated sector. */
  lemma SectorsCoverRange(m: MapData, g: GridIndex, cell: GridIndex)
    requires IsValidGridIndex(m, cell) && IsInGridRange(g, cell)
    ensures VisibleSectorId(m, g, SectorOf(m, cell))
  {
    CellInSectorRange(g.x, cell.x, m.gridX);
    CellInSectorRange(g.y, cell.y, m.gridY);
    var x: Int32, y: Int32 := TruncDiv(cell.x, SECTOR_SIZE), TruncDiv(cell.y, SECTOR_SIZE);
    assert VisibleSector(m, g, x, y) && SectorOf(m, cell) == SectorId(x, y);
  }

  /** Nothing more is looked into: from a cell of the map, a sector is enumerated exactly when some
      cell of it is in range and not past the map's far edge. */
  lemma VisibleSectorIff(m: MapData, g: GridIndex, x: nat, y: nat)
    requires IsValidGridIndex(m, g)
    ensures VisibleSector(m, g, x, y) <==>
              exists cell: GridIndex ::
                && 0 <= cell.x <= m.gridX && 0 <= cell.y <= m.gridY && IsInGridRange(g, cell)
                && TruncDiv(cell.x, SECTOR_SIZE) == x && TruncDiv(cell.y, SECTOR_SIZE) == y
  {
    if VisibleSector(m, g, x, y) {
      var cell := GridIndex(SomeCell(g.x, m.gridX, x), SomeCell(g.y, m.gridY, y));
      assert IsInGridRange(g, cell);
    }
    if cell: GridIndex :| 0 <= cell.x <= m.gridX && 0 <= cell.y <= m.gridY && IsInGridRange(g, cell)
                          && TruncDiv(cell.x, SECTOR_SIZE) == x && TruncDiv(cell.y, SECTOR_SIZE) == y {
    }
  }

  /** A cell of the sector that is in range and not past the edge. */
  function SomeCell(g: int, cells: Int32, sector: nat): (cell: nat)
    requires 0 <= g < cells && FirstSector(g) <= sector <= LastSector(g, cells)
    ensures cell <= cells && Abs(g - cell) <= VISIBLE_RANGE && TruncDiv(cell, SECTOR_SIZE) == sector
  {
    Max(Max(0, g - VISIBLE_RANGE), sector * SECTOR_SIZE)
  }

  lemma CornerOutOfSight(m: MapData)
    requires m.gridSize == 1 && m.gridX == 100 && m.gridY == 100 && m.worldMinX == 0 && m.worldMinY == 0
    ensures !VisibleBucket(m, Vector(0.0, 0.0), BucketOf(m, Place(Town, GridIndex(90, 90))))
  {
    var g := MakeGridIndex(m, Vector(0.0, 0.0));
    forall x: Int32, y: Int32 | VisibleSector(m, g, x, y)
      ensures SectorId(x, y) != SectorId(4, 4)
    {
      SectorIdInjective(x, y, 4, 4);
    }
  }

  lemma BothInSight()
    ensures var a, b, c := Place(Town, GridIndex(25, 25)), Place(Town, GridIndex(45, 25)), Place(Town, GridIndex(5, 5));
            && BucketOf(SMALL_MAP, a) != BucketOf(SMALL_MAP, b) && BucketOf(SMALL_MAP, a) != BucketOf(SMALL_MAP, c)
            && VisibleBucket(SMALL_MAP, Vector(10.0, 10.0), BucketOf(SMALL_MAP, a))
            && VisibleBucket(SMALL_MAP, Vector(10.0, 10.0), BucketOf(SMALL_MAP, c))
  {
    SectorIdInjective(1, 1, 2, 1);
    SectorIdInjective(1, 1, 0, 0);
    SectorsCoverRange(SMALL_MAP, GridIndex(10, 10), GridIndex(25, 25));
    SectorsCoverRange(SMALL_MAP, GridIndex(10, 10), GridIndex(5, 5));
  }

  ghost predicate InSomeZone(m: MapData, pos: Vector) {
    exists i :: 0 <= i < |m.zones| && Contains(m.zones[i].worldPos, pos)
  }

  /** The zone of a near position is looked into. */
  lemma ZonesCoverRange(m: MapData, pos: Vector, target: Vector)
    requires Near(m, pos, target) && InSomeZone(m, target)
    ensures VisibleZone(m, pos, ZoneAt(m.zones, target))
  {
    var i :| 0 <= i < |m.zones| && Contains(m.zones[i].worldPos, target);
    ZoneAtContains(m.zones, target, i);
    var j :| 0 <= j <= i && m.zones[j].zoneType == ZoneAt(m.zones, target) && Contains(m.zones[j].worldPos, target);
    NearZoneInRange(m, pos, target, m.zones[j].worldPos);
  }

  /** A zone is looked into exactly when it is the current one, or some position of it is near. */
  lemma VisibleZoneIff(m: MapData, pos: Vector, z: ZoneType)
    requires m.gridSize > 0
    requires forall i :: 0 <= i < |m.zones| ==>
               var zone := m.zones[i].worldPos; zone.minX < zone.maxX && zone.minY < zone.maxY
    ensures VisibleZone(m, pos, z) <==>
              || z == ZoneAt(m.zones, pos)
              || exists i, target :: 0 <= i < |m.zones| && m.zones[i].zoneType == z
                                     && Contains(m.zones[i].worldPos, target) && Near(m, pos, target)
  {
    forall i | 0 <= i < |m.zones|
      ensures IsInRange(pos, m.zones[i].worldPos, m.gridSize) <==>
                exists target :: Contains(m.zones[i].worldPos, target) && Near(m, pos, target)
    {
      ZoneInRangeIff(m, pos, m.zones[i].worldPos);
    }
  }

  ghost predicate DistinctZones(m: MapData) {
    forall i, j :: 0 <= i < j < |m.zones| ==> m.zones[i].zoneType != m.zones[j].zoneType
  }

  method GetVisibleZones(m: MapData, pos: Vector) returns (outZoneTypes: seq<ZoneType>)
    ensures forall z :: z in outZoneTypes <==> VisibleZone(m, pos, z)
    ensures DistinctZones(m) ==> Distinct(outZoneTypes)
  {
    var currentZone := GetZoneByPosition(m, pos);
    outZoneTypes := [currentZone];
    for k := 0 to |m.zones|
      invariant forall z :: z in outZoneTypes <==>
                  z == currentZone ||
                  exists i :: 0 <= i < k && m.zones[i].zoneType == z && IsInRange(pos, m.zones[i].worldPos, m.gridSize)
      invariant DistinctZones(m) ==> Distinct(outZoneTypes)
    {
      ghost var before := outZoneTypes;
      var zoneInfo := m.zones[k];
      if zoneInfo.zoneType != currentZone && IsInRange(pos, zoneInfo.worldPos, m.gridSize) {
        assert DistinctZones(m) ==> zoneInfo.zoneType !in outZoneTypes;
        outZoneTypes := outZoneTypes + [zoneInfo.zoneType];
      }
      assert forall z :: z in outZoneTypes ==> z in before || z == zoneInfo.zoneType;
    }
  }

  method GetVisibleSectorIds(m: MapData, g: GridIndex) returns (outSectorIds: seq<int>)
    ensures forall id :: id in outSectorIds <==> VisibleSectorId(m, g, id)
    ensures Distinct(outSectorIds)
  {
    var startSectorX, endSectorX := FirstSector(g.x), LastSector(g.x, m.gridX);
    var startSectorY, endSectorY := FirstSector(g.y), LastSector(g.y, m.gridY);
    outSectorIds := [];
    var sectorY := startSectorY;
    while sectorY <= endSectorY
      invariant startSectorY <= sectorY
      invariant forall id :: id in outSectorIds <==>
                  exists x: Int32, y: Int32 :: VisibleSector(m, g, x, y) && y < sectorY && id == SectorId(x, y)
      invariant Distinct(outSectorIds)
    {
      var sectorX := startSectorX;
      while sectorX <= endSectorX
        invariant startSectorX <= sectorX
        invariant forall id :: id in outSectorIds <==>
                    exists x: Int32, y: Int32 ::
                      && VisibleSector(m, g, x, y)
                      && (y < sectorY || (y == sectorY && x < sectorX)) && id == SectorId(x, y)
        invariant Distinct(outSectorIds)
      {
        var id := SectorId(sectorX, sectorY);
        assert VisibleSector(m, g, sectorX, sectorY);
        forall x: Int32, y: Int32 | VisibleSector(m, g, x, y)
          ensures SectorId(x, y) == id <==> x == sectorX && y == sectorY
        {
          SectorIdInjective(x, y, sectorX, sectorY);
        }
        assert id !in outSectorIds;
        outSectorIds := outSectorIds + [id];
        sectorX := sectorX + 1;
      }
      sectorY := sectorY + 1;
    }
  }
}
