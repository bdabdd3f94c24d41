/** Lives of a player that reach, by the world's own operations, the states in which its index is wrong
    (GameServer/World/WorldManager.cpp, GameServer/Object/GameObject.cpp). */
module WorldScenarios {
  import opened WorldMap
  import opened SectorIndex
  import opened World

  function At(x: int, y: int): Place {
    Place(Town, GridIndex(x, y))
  }

  /** The world holds one player, which has lived through `events`. */
  ghost predicate Alone(world: WorldManager, player: GameObject, events: seq<Event>)
    reads world, world.history.Keys, player
  {
    && world.Valid() && world.mapData == SMALL_MAP && world.Recorded()
    && world.history == map[player := events] && world.sectorUpdateSet <= {player} && world.forceDeleteObjs == []
    && player.isPlayer && player.isValid && player.zoneType == player.prevZoneType == Town
  }

  method Begin() returns (world: WorldManager, player: GameObject)
    ensures fresh(world) && fresh(player) && Alone(world, player, [])
  {
    assert SMALL_MAP.zones[0].zoneType == Town;
    world := new WorldManager(SMALL_MAP);
    player := new GameObject(1, true, world);
  }

  lemma AtIsPlace(x: nat, y: nat)
    ensures PlaceAt(SMALL_MAP, Vector(x as real, y as real)) == At(x, y)
  {
    var pos := Vector(x as real, y as real);
    assert (pos.x - 0 as real) / 1 as real == pos.x && (pos.y - 0 as real) / 1 as real == pos.y;
    assert MakeGridIndex(SMALL_MAP, pos) == GridIndex(x, y);
    assert SMALL_MAP.zones[1..] == [];
    assert ZoneAt(SMALL_MAP.zones, pos) == Town;
  }

  method GoTo(world: WorldManager, player: GameObject, to: GridIndex, ghost events: seq<Event>)
    requires Alone(world, player, events) && to.x >= 0 && to.y >= 0
    modifies player, world`sectorUpdateSet, world`history
    ensures Alone(world, player, events + [Move(At(to.x, to.y))])
  {
    AtIsPlace(to.x, to.y);
    player.SetWorldPosition(world, Vector(to.x as real, to.y as real));
  }

  method Wait(world: WorldManager, player: GameObject, ghost events: seq<Event>)
    requires Alone(world, player, events)
    modifies world`zoneSectors, world`sectorUpdateSet, world`history
    ensures Alone(world, player, events + [Tick])
  {
    world.UpdateSector();
  }

  /** Every life of moves and ticks is lived by a player. */
  method Live(events: seq<Event>) returns (world: WorldManager, player: GameObject)
    requires forall e :: e in events ==> !e.Request?
    requires forall e :: e in events && e.Move? ==> e.to.zone == Town && e.to.grid.x >= 0 && e.to.grid.y >= 0
    ensures fresh(world) && fresh(player) && Alone(world, player, events)
  {
    world, player := Begin();
    for i := 0 to |events|
      invariant Alone(world, player, events[..i])
    {
      assert events[i] in events && events[..i + 1] == events[..i] + [events[i]];
      match events[i]
      case Move(to) => GoTo(world, player, to.grid, events[..i]);
      case Tick => Wait(world, player, events[..i]);
    }
    assert events[..|events|] == events;
  }

  const ARRIVAL: seq<Event> := [Move(At(90, 90)), Tick, Move(At(1, 1))]
  const TWO_MOVES: seq<Event> := [Move(At(25, 25)), Tick, Move(At(45, 25)), Move(At(5, 5)), Tick]

  /** A player filed in the far corner moves next to the origin, and is missed there until the tick. */
  method MissArrival() returns (world: WorldManager, player: GameObject, found: seq<GameObject>)
    ensures Alone(world, player, ARRIVAL)
    ensures Shown(player, MakeGridIndex(SMALL_MAP, Vector(0.0, 0.0)), false) && player !in found
    ensures forall o: GameObject :: o in found <==> world.InSight(Vector(0.0, 0.0), false, o)
  {
    world, player := Live(ARRIVAL);
    world.ArrivalIsMissed(false, player);
    found := world.GetVisibleObjectsInSectors(Vector(0.0, 0.0), false);
  }

  /** A player that moved twice in one tick, through a second sector into a third, is listed twice
      after it. */
  method ListTwice() returns (world: WorldManager, player: GameObject, found: seq<GameObject>)
    ensures Alone(world, player, TWO_MOVES) && multiset(found)[player] == 2
  {
    world, player := Live(TWO_MOVES);
    world.StaleIsListedTwice(false, player);
    found := world.GetVisibleObjectsInSectors(Vector(10.0, 10.0), false);
  }

  /** Deleted where it is, it stays filed where it was. */
  method DeleteInVain() returns (world: WorldManager, player: GameObject)
    ensures world.mapData == SMALL_MAP && BucketOf(SMALL_MAP, At(25, 25)) in BucketsOf(world.zoneSectors, player)
  {
    world, player := Live(TWO_MOVES);
    StaleEntryOutlivesDeletion(SMALL_MAP, At(25, 25), At(45, 25), At(5, 5));
    world.RequestSectorDelete(player, player.Cur());
    world.SectorUpdateWorkerThread();
  }
}
