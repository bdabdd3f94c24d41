/** Sector coordinates packed into one 64-bit id (GameServer/World/Zone/Sector.h). */
module SectorIds {

  const SECTOR_SIZE: nat := 20
  const TWO32: nat := 0x1_0000_0000

  type Int32 = v: int | -0x8000_0000 <= v < 0x8000_0000

  /** C++ integer division: toward zero. */
  function TruncDiv(a: int, b: nat): int
    requires b > 0
  {
    if a >= 0 then a / b else -((-a) / b)
  }

  /** The conversion of a 32-bit signed value to 64 unsigned bits extends the sign. */
  function ToUint64(v: Int32): nat {
    if v >= 0 then v else v + TWO32 * TWO32
  }

  function ToInt32(u: nat): Int32
    requires u < TWO32
  {
    if u < 0x8000_0000 then u else u - TWO32
  }

  /** The id is `x << 32 | y` on 64 unsigned bits. The upper half of `y` is either all zeros
      or, for a negative `y`, all ones, so the disjunction keeps `x` or drowns it. */
  function SectorId(x: Int32, y: Int32): nat {
    var low := ToUint64(y);
    var high := if low / TWO32 == 0 then x % TWO32 else TWO32 - 1;
    high * TWO32 + low % TWO32
  }

  function GetSectorX(id: nat): Int32
    requires id < TWO32 * TWO32
  {
    ToInt32(id / TWO32)
  }

  function GetSectorY(id: nat): Int32 {
    ToInt32(id % TWO32)
  }

  lemma SplitWord(high: nat, low: nat)
    requires low < TWO32
    ensures (high * TWO32 + low) / TWO32 == high && (high * TWO32 + low) % TWO32 == low
  {
  }

  lemma SectorIdHalves(x: Int32, y: Int32)
    ensures SectorId(x, y) / TWO32 == (if y >= 0 then x % TWO32 else TWO32 - 1)
    ensures SectorId(x, y) % TWO32 == y % TWO32
    ensures SectorId(x, y) < TWO32 * TWO32
  {
    var low := ToUint64(y);
    if y < 0 {
      assert low == (TWO32 - 1) * TWO32 + (y + TWO32);
      SplitWord(TWO32 - 1, y + TWO32);
      assert y % TWO32 == y + TWO32;
    }
    SplitWord(if y >= 0 then x % TWO32 else TWO32 - 1, low % TWO32);
  }

  /** The coordinates can be read back exactly when `y` is not negative (or `x` happens to be
      the all-ones word a negative `y` leaves behind). */
  lemma SectorIdRoundTripIff(x: Int32, y: Int32)
    ensures SectorId(x, y) < TWO32 * TWO32
    ensures GetSectorX(SectorId(x, y)) == x && GetSectorY(SectorId(x, y)) == y <==> y >= 0 || x == -1
  {
    SectorIdHalves(x, y);
  }

  /** On the sectors of the map, ids tell sectors apart. */
  lemma SectorIdInjective(x: Int32, y: Int32, x': Int32, y': Int32)
    requires y >= 0 && y' >= 0
    ensures SectorId(x, y) == SectorId(x', y') <==> x == x' && y == y'
  {
    SectorIdRoundTripIff(x, y);
    SectorIdRoundTripIff(x', y');
  }
}
