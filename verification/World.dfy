/** Game objects, the sector index that files them, and the visibility queries that use it
    (GameServer/Object/GameObject.cpp, GameServer/World/WorldManager.cpp). */
module World {
  import opened SectorIds
  import opened WorldMap
  import opened SectorIndex
  import opened Visibility
  import opened Sequences
  import Vision

  function PlaceAt(m: MapData, pos: Vector): Place
    requires m.gridSize > 0
  {
    Place(ZoneAt(m.zones, pos), MakeGridIndex(m, pos))
  }

  /** What a query shows of the objects it finds. */
  predicate Shown(o: GameObject, g: GridIndex, onlyPlayer: bool)
    reads o
  {
    IsInGridRange(g, o.gridIndex) && if o.isPlayer then o.isValid else !onlyPlayer
  }

  /** No object is in two buckets. */
  ghost predicate FiledOnce<T>(ix: Index<T>) {
    forall z, id, z', id' :: z in ix && id in ix[z] && z' in ix && id' in ix[z'] && (z != z' || id != id')
                             ==> ix[z][id] !! ix[z'][id']
  }

  /** One more event in the life of an object, if it is recorded at all. */
  ghost function Extended(history: map<GameObject, seq<Event>>, o: GameObject, e: Event): map<GameObject, seq<Event>> {
    if o in history then history[o := history[o] + [e]] else history
  }

  lemma ExtendedReplays(m: MapData, events: seq<Event>, e: Event)
    ensures ApplyAll(m, FRESH, events + [e]) == Apply(m, ApplyAll(m, FRESH, events), e)
    ensures LeftHome(events + [e]) <==> LeftHome(events) || (e.Move? && e.to != HOME)
  {
    assert Init(events + [e]) == events;
    LeftHomeGrows(events + [e]);
  }

  /** Moved at most once between ticks, and just ticked. */
  predicate Ticked(events: seq<Event>) {
    Disciplined(events) && events != [] && Last(events).Tick?
  }

  /** Objects are filed nowhere else than where they are. */
  ghost predicate FiledTruly(m: MapData, ix: Index<GameObject>, objects: set<GameObject>)
    reads objects
  {
    forall o, b :: o in objects && FiledIn(ix, o, b) ==> b == BucketOf(m, o.Cur())
  }

  /** The buckets that hold an object in some of the zones and sectors. */
  ghost function HeldIn<T>(ix: Index<T>, o: T, zones: seq<ZoneType>, ids: iset<int>): set<Bucket> {
    set b | b in BucketsOf(ix, o) && b.In? && b.zone in zones && b.id in ids
  }

  ghost function Members(s: seq<int>): iset<int> {
    iset k | k in s
  }

  lemma HeldInOneMore<T>(ix: Index<T>, o: T, z: ZoneType, ids: iset<int>, id: int)
    requires id !in ids
    ensures |HeldIn(ix, o, [z], ids + iset{id})|
         == |HeldIn(ix, o, [z], ids)| + (if FiledIn(ix, o, In(z, id)) then 1 else 0)
  {
    var was := HeldIn(ix, o, [z], ids);
    assert FiledIn(ix, o, In(z, id)) <==> In(z, id) in BucketsOf(ix, o);
    assert HeldIn(ix, o, [z], ids + iset{id}) == was + (if FiledIn(ix, o, In(z, id)) then {In(z, id)} else {});
  }

  lemma HeldInOneMoreZone<T>(ix: Index<T>, o: T, zones: seq<ZoneType>, z: ZoneType, ids: iset<int>)
    ensures HeldIn(ix, o, zones + [z], ids) == HeldIn(ix, o, zones, ids) + HeldIn(ix, o, [z], ids)
    ensures z !in zones ==>
              |HeldIn(ix, o, zones + [z], ids)| == |HeldIn(ix, o, zones, ids)| + |HeldIn(ix, o, [z], ids)|
  {
    var was, more := HeldIn(ix, o, zones, ids), HeldIn(ix, o, [z], ids);
    assert HeldIn(ix, o, zones + [z], ids) == was + more;
    assert z !in zones ==> was !! more;
  }

  function IdsOf(objs: seq<GameObject>): (ids: seq<Vision.ObjectId>) {
    seq(|objs|, i requires 0 <= i < |objs| => objs[i].objectId)
  }

  class GameObject {
    const objectId: Vision.ObjectId
    const isPlayer: bool
    var isValid: bool
    var vectorPos: Vector
    var zoneType: ZoneType
    var gridIndex: GridIndex
    var prevZoneType: ZoneType
    var prevGridIndex: GridIndex

    /** The world's record of the object begins; the world itself is not touched. */
    constructor (objectId: Vision.ObjectId, isPlayer: bool, ghost world: WorldManager)
      modifies world`history
      ensures this.objectId == objectId && this.isPlayer == isPlayer && isValid && Cur() == HOME && Prev() == HOME
      ensures world.history == old(world.history)[this := []] && world.FilingOf(this) == FRESH
      ensures old(world.Recorded()) ==> world.Recorded()
    {
      this.objectId, this.isPlayer := objectId, isPlayer;
      isValid := true;
      vectorPos := Vector(0.0, 0.0);
      zoneType, gridIndex := Town, GridIndex(0, 0);
      prevZoneType, prevGridIndex := Town, GridIndex(0, 0);
      new;
      world.history := world.history[this := []];
    }

    function Cur(): Place
      reads this
    {
      Place(zoneType, gridIndex)
    }

    function Prev(): Place
      reads this
    {
      Place(prevZoneType, prevGridIndex)
    }

    method SetWorldPosition(world: WorldManager, pos: Vector)
      requires world.mapData.gridSize > 0
      modifies this, world`sectorUpdateSet, world`history
      ensures vectorPos == pos && isValid == old(isValid) && Cur() == PlaceAt(world.mapData, pos)
      ensures world.FilingOf(this) == Apply(world.mapData, old(world.FilingOf(this)), Move(Cur()))
      ensures forall o: GameObject :: o != this ==> (o in world.sectorUpdateSet <==> o in old(world.sectorUpdateSet))
      ensures world.history == Extended(old(world.history), this, Move(Cur()))
      ensures old(world.Recorded()) ==> world.Recorded()
    {
      var newZoneType := GetZoneByPosition(world.mapData, pos);
      var newGridIndex := MakeGridIndex(world.mapData, pos);
      prevZoneType := zoneType;
      prevGridIndex := gridIndex;
      var needSectorUpdate := zoneType != newZoneType || gridIndex != newGridIndex;
      vectorPos := pos;
      zoneType := newZoneType;
      gridIndex := newGridIndex;
      if needSectorUpdate {
        world.RequestSectorUpdate(this);
      }
      assert old(world.Recorded()) ==> world.RecordedBut(this, old(world.FilingOf(this))) by {
        forall o: GameObject | o in world.history && o != this
          ensures world.FilingOf(o) == old(world.FilingOf(o))
        {
        }
      }
      world.Record(this, Move(Cur()), old(world.FilingOf(this)));
    }

    /** What entering the game does to the index: the object is put at its spawn position, and an
        update is requested in any case. */
    method SendEnterGamePkt(world: WorldManager, spawn: Vector)
      requires world.mapData.gridSize > 0
      modifies this, world`sectorUpdateSet, world`history
      ensures vectorPos == spawn && isValid == old(isValid) && Cur() == PlaceAt(world.mapData, spawn)
      ensures world.FilingOf(this)
           == Apply(world.mapData, Apply(world.mapData, old(world.FilingOf(this)), Move(Cur())), Request)
      ensures world.history == Extended(Extended(old(world.history), this, Move(Cur())), this, Request)
      ensures old(world.Recorded()) ==> world.Recorded()
    {
      SetWorldPosition(world, spawn);
      ghost var placed := world.FilingOf(this);
      world.RequestSectorUpdate(this);
      world.Record(this, Request, placed);
    }
  }

  class WorldManager {
    const mapData: MapData
    var zoneSectors: Index<GameObject>
    var sectorUpdateSet: set<GameObject>
    /** The objects to be deleted, each with the place it was in when that was requested. */
    var forceDeleteObjs: seq<(GameObject, Place)>
    /** The updates, requests and ticks of every object constructed and not deleted since. */
    ghost var history: map<GameObject, seq<Event>>

    /** Every zone of the map has its sectors, Town among them. */
    ghost predicate Valid()
      reads this
    {
      && mapData.gridSize > 0
      && Town in zoneSectors
      && forall i :: 0 <= i < |mapData.zones| ==> mapData.zones[i].zoneType in zoneSectors
    }

    ghost function FilingOf(o: GameObject): Filing
      reads this, o
    {
      Filing(o.Prev(), o.Cur(), o in sectorUpdateSet, BucketsOf(zoneSectors, o))
    }

    /** Every recorded object is filed, pending and placed as its history says. */
    ghost predicate Recorded()
      reads this, history.Keys
    {
      && mapData.gridSize > 0
      && forall o :: o in history ==>
           && FilingOf(o) == ApplyAll(mapData, FRESH, history[o])
           && (LeftHome(history[o]) ==> o.Cur() == PlaceAt(mapData, o.vectorPos))
    }

    /** Everything is as recorded, but for one object, whose filing is still `f` there. */
    ghost predicate RecordedBut(o: GameObject, f: Filing)
      reads this, history.Keys
    {
      && mapData.gridSize > 0
      && (o in history ==> f == ApplyAll(mapData, FRESH, history[o]))
      && forall p :: p in history && p != o ==>
           && FilingOf(p) == ApplyAll(mapData, FRESH, history[p])
           && (LeftHome(history[p]) ==> p.Cur() == PlaceAt(mapData, p.vectorPos))
    }

    /** Records the event that the object just went through. */
    ghost method Record(o: GameObject, e: Event, before: Filing)
      modifies this`history
      ensures history == Extended(old(history), o, e)
      ensures old(RecordedBut(o, before)) ==>
              FilingOf(o) == Apply(mapData, before, e) && o.Cur() == PlaceAt(mapData, o.vectorPos) ==> Recorded()
    {
      if o in history {
        ExtendedReplays(mapData, history[o], e);
      }
      history := Extended(history, o, e);
    }

    constructor (mapData: MapData)
      requires mapData.gridSize > 0 && exists i :: 0 <= i < |mapData.zones| && mapData.zones[i].zoneType == Town
      ensures Valid() && this.mapData == mapData && sectorUpdateSet == {} && forceDeleteObjs == []
      ensures Recorded() && history == map[] && forall o: GameObject :: BucketsOf(zoneSectors, o) == {}
    {
      this.mapData := mapData;
      sectorUpdateSet, forceDeleteObjs, history := {}, [], map[];
      var sectors: Index<GameObject> := map[];
      for i := 0 to |mapData.zones|
        invariant forall k :: 0 <= k < i ==> mapData.zones[k].zoneType in sectors
        invariant forall z :: z in sectors ==> sectors[z] == map[]
      {
        sectors := sectors[mapData.zones[i].zoneType := map[]];
      }
      zoneSectors := sectors;
    }

    method RequestSectorUpdate(obj: GameObject)
      modifies this`sectorUpdateSet
      ensures sectorUpdateSet == old(sectorUpdateSet) + {obj}
      ensures FilingOf(obj) == Apply(mapData, old(FilingOf(obj)), Request)
    {
      sectorUpdateSet := sectorUpdateSet + {obj};
    }

    method AddObjectToSector(obj: GameObject, zoneType: ZoneType, gridIndex: GridIndex)
      requires Valid() && zoneType in zoneSectors
      modifies this`zoneSectors
      ensures Valid() && zoneSectors.Keys == old(zoneSectors).Keys
      ensures var bucket := Only(BucketOf(mapData, Place(zoneType, gridIndex)));
              forall o: GameObject :: BucketsOf(zoneSectors, o)
                == BucketsOf(old(zoneSectors), o) + (if o == obj then bucket else {})
    {
      if !IsValidGridIndex(mapData, gridIndex) {
        return;
      }
      var sectorId := SectorOf(mapData, gridIndex);
      forall o: GameObject
        ensures BucketsOf(AddTo(zoneSectors, obj, zoneType, sectorId), o)
             == BucketsOf(zoneSectors, o) + (if o == obj then {In(zoneType, sectorId)} else {})
      {
        AddFiles(zoneSectors, obj, zoneType, sectorId, o);
      }
      zoneSectors := AddTo(zoneSectors, obj, zoneType, sectorId);
    }

    method RemoveObjectToSector(obj: GameObject, zoneType: ZoneType, gridIndex: GridIndex)
      requires Valid() && zoneType in zoneSectors
      modifies this`zoneSectors
      ensures Valid() && zoneSectors.Keys == old(zoneSectors).Keys
      ensures var bucket := Only(BucketOf(mapData, Place(zoneType, gridIndex)));
              forall o: GameObject :: BucketsOf(zoneSectors, o)
                == BucketsOf(old(zoneSectors), o) - (if o == obj then bucket else {})
    {
      if !IsValidGridIndex(mapData, gridIndex) {
        return;
      }
      var sectorId := SectorOf(mapData, gridIndex);
      forall o: GameObject
        ensures BucketsOf(RemoveFrom(zoneSectors, obj, zoneType, sectorId), o)
             == BucketsOf(zoneSectors, o) - (if o == obj then {In(zoneType, sectorId)} else {})
      {
        RemoveUnfiles(zoneSectors, obj, zoneType, sectorId, o);
      }
      zoneSectors := RemoveFrom(zoneSectors, obj, zoneType, sectorId);
    }

    method RequestSectorDelete(obj: GameObject, place: Place)
      modifies this`forceDeleteObjs
      ensures forceDeleteObjs == old(forceDeleteObjs) + [(obj, place)]
    {
      forceDeleteObjs := forceDeleteObjs + [(obj, place)];
    }

    /** Takes every object whose deletion was requested out of the bucket it was requested for,
        and no object out of any other. */
    method DeleteObjSector()
      requires Valid() && forall k :: 0 <= k < |forceDeleteObjs| ==> forceDeleteObjs[k].1.zone in zoneSectors
      modifies this`zoneSectors, this`forceDeleteObjs, this`history
      ensures Valid() && forceDeleteObjs == [] && zoneSectors.Keys == old(zoneSectors).Keys
      ensures forall o: GameObject, b ::
                FiledIn(zoneSectors, o, b) <==>
                  FiledIn(old(zoneSectors), o, b) && !DeletedFrom(old(forceDeleteObjs), o, b)
      ensures forall k :: 0 <= k < |old(forceDeleteObjs)| ==>
                var (o, place) := old(forceDeleteObjs)[k];
                !FiledIn(zoneSectors, o, BucketOf(mapData, place))
      ensures history == old(history) - Requested(old(forceDeleteObjs)) && (old(Recorded()) ==> Recorded())
    {
      var deleteObjs := forceDeleteObjs;
      forceDeleteObjs := [];
      for i := 0 to |deleteObjs|
        invariant Valid() && zoneSectors.Keys == old(zoneSectors).Keys
        invariant forceDeleteObjs == [] && history == old(history)
        invariant forall o: GameObject, b ::
                    FiledIn(zoneSectors, o, b) <==>
                      FiledIn(old(zoneSectors), o, b) && !DeletedFrom(deleteObjs[..i], o, b)
      {
        var (obj, place) := deleteObjs[i];
        ghost var before := zoneSectors;
        RemoveObjectToSector(obj, place.zone, place.grid);
        forall o: GameObject, b
          ensures FiledIn(zoneSectors, o, b) <==> FiledIn(before, o, b) && !(o == obj && b == BucketOf(mapData, place))
        {
          assert b in BucketsOf(zoneSectors, o) <==> FiledIn(zoneSectors, o, b);
          assert b in BucketsOf(before, o) <==> FiledIn(before, o, b);
        }
        assert deleteObjs[..i + 1] == deleteObjs[..i] + [deleteObjs[i]];
      }
      assert deleteObjs[..|deleteObjs|] == deleteObjs;
      history := history - Requested(deleteObjs);
      forall o: GameObject | o in history
        ensures BucketsOf(zoneSectors, o) == BucketsOf(old(zoneSectors), o)
      {
        assert forall b :: !DeletedFrom(deleteObjs, o, b);
        assert forall b :: b in BucketsOf(zoneSectors, o) <==> FiledIn(zoneSectors, o, b);
        assert forall b :: b in BucketsOf(old(zoneSectors), o) <==> FiledIn(old(zoneSectors), o, b);
      }
    }

    ghost function Requested(requests: seq<(GameObject, Place)>): set<GameObject> {
      set k | 0 <= k < |requests| :: requests[k].0
    }

    ghost predicate DeletedFrom(requests: seq<(GameObject, Place)>, o: GameObject, b: Bucket) {
      exists k :: 0 <= k < |requests| && requests[k].0 == o && BucketOf(mapData, requests[k].1) == b
    }

    /** The tick: every object's filing takes its Tick step, pending or not. */
    method UpdateSector()
      requires Valid()
      requires forall o :: o in sectorUpdateSet ==> o.prevZoneType in zoneSectors && o.zoneType in zoneSectors
      modifies this`zoneSectors, this`sectorUpdateSet, this`history
      ensures Valid() && sectorUpdateSet == {} && zoneSectors.Keys == old(zoneSectors).Keys
      ensures forall o: GameObject ::
                var before := Filing(o.Prev(), o.Cur(), o in old(sectorUpdateSet), BucketsOf(old(zoneSectors), o));
                FilingOf(o) == Apply(mapData, before, Tick)
      ensures history == (map o | o in old(history) :: old(history)[o] + [Tick]) && (old(Recorded()) ==> Recorded())
    {
      UpdatePending();
      assert old(Recorded()) ==> TickedOn();
      RecordTick();
    }

    method UpdatePending()
      requires Valid()
      requires forall o :: o in sectorUpdateSet ==> o.prevZoneType in zoneSectors && o.zoneType in zoneSectors
      modifies this`zoneSectors, this`sectorUpdateSet
      ensures Valid() && sectorUpdateSet == {} && zoneSectors.Keys == old(zoneSectors).Keys
      ensures forall o: GameObject ::
                var before := Filing(o.Prev(), o.Cur(), o in old(sectorUpdateSet), BucketsOf(old(zoneSectors), o));
                FilingOf(o) == Apply(mapData, before, Tick)
    {
      var gameObjects := sectorUpdateSet;
      sectorUpdateSet := {};
      var updateObjs := set o | o in gameObjects && !(o.prevGridIndex == o.gridIndex && o.prevZoneType == o.zoneType);
      RelocateAll(updateObjs);
    }

    /** Records the tick that every object just went through. */
    ghost method RecordTick()
      modifies this`history
      ensures history == map o | o in old(history) :: old(history)[o] + [Tick]
      ensures old(TickedOn()) ==> Recorded()
    {
      forall o | o in history {
        ExtendedReplays(mapData, history[o], Tick);
      }
      history := map o | o in history :: history[o] + [Tick];
    }

    /** Every recorded object is one tick ahead of its history. */
    ghost predicate TickedOn()
      reads this, history.Keys
    {
      && mapData.gridSize > 0
      && forall o :: o in history ==>
           && FilingOf(o) == Apply(mapData, ApplyAll(mapData, FRESH, history[o]), Tick)
           && (LeftHome(history[o]) ==> o.Cur() == PlaceAt(mapData, o.vectorPos))
    }

    method RelocateAll(objects: set<GameObject>)
      requires Valid() && forall o :: o in objects ==> o.prevZoneType in zoneSectors && o.zoneType in zoneSectors
      modifies this`zoneSectors
      ensures Valid() && zoneSectors.Keys == old(zoneSectors).Keys
      ensures forall o :: o in objects ==>
                BucketsOf(zoneSectors, o) == Refiled(mapData, BucketsOf(old(zoneSectors), o), o.Prev(), o.Cur())
      ensures forall o: GameObject :: o !in objects ==> BucketsOf(zoneSectors, o) == BucketsOf(old(zoneSectors), o)
    {
      var rest := objects;
      while rest != {}
        invariant Valid() && rest <= objects && zoneSectors.Keys == old(zoneSectors).Keys
        invariant forall o :: o in objects - rest ==>
                    BucketsOf(zoneSectors, o) == Refiled(mapData, BucketsOf(old(zoneSectors), o), o.Prev(), o.Cur())
        invariant forall o: GameObject :: o !in objects - rest ==>
                    BucketsOf(zoneSectors, o) == BucketsOf(old(zoneSectors), o)
      {
        var obj :| obj in rest;
        rest := rest - {obj};
        Relocate(obj);
      }
    }

    /** Takes the object out of the bucket of its previous place and into that of its current one. */
    method Relocate(obj: GameObject)
      requires Valid() && obj.prevZoneType in zoneSectors && obj.zoneType in zoneSectors
      modifies this`zoneSectors
      ensures Valid() && zoneSectors.Keys == old(zoneSectors).Keys
      ensures BucketsOf(zoneSectors, obj) == Refiled(mapData, BucketsOf(old(zoneSectors), obj), obj.Prev(), obj.Cur())
      ensures forall o: GameObject :: o != obj ==> BucketsOf(zoneSectors, o) == BucketsOf(old(zoneSectors), o)
    {
      RemoveObjectToSector(obj, obj.prevZoneType, obj.prevGridIndex);
      AddObjectToSector(obj, obj.zoneType, obj.gridIndex);
    }

    /** Deletions first, then updates: what the tick makes of every object's filing. */
    method SectorUpdateWorkerThread()
      requires Valid() && forall k :: 0 <= k < |forceDeleteObjs| ==> forceDeleteObjs[k].1.zone in zoneSectors
      requires forall o :: o in sectorUpdateSet ==> o.prevZoneType in zoneSectors && o.zoneType in zoneSectors
      modifies this`zoneSectors, this`sectorUpdateSet, this`forceDeleteObjs, this`history
      ensures Valid() && sectorUpdateSet == {} && forceDeleteObjs == []
      ensures forall o: GameObject ::
                var kept := set b | b in BucketsOf(old(zoneSectors), o) && !DeletedFrom(old(forceDeleteObjs), o, b);
                FilingOf(o) == Apply(mapData, Filing(o.Prev(), o.Cur(), o in old(sectorUpdateSet), kept), Tick)
      ensures forall o: GameObject, at :: OnlyRequest(old(forceDeleteObjs), o, at) ==>
                var before := Filing(o.Prev(), o.Cur(), o in old(sectorUpdateSet), BucketsOf(old(zoneSectors), o));
                FilingOf(o) == TickAfterDelete(mapData, before, at)
      ensures old(Recorded()) ==> Recorded()
    {
      DeleteObjSector();
      forall o: GameObject
        ensures BucketsOf(zoneSectors, o)
             == set b | b in BucketsOf(old(zoneSectors), o) && !DeletedFrom(old(forceDeleteObjs), o, b)
      {
        assert forall b :: b in BucketsOf(zoneSectors, o) <==> FiledIn(zoneSectors, o, b);
        assert forall b :: b in BucketsOf(old(zoneSectors), o) <==> FiledIn(old(zoneSectors), o, b);
      }
      UpdateSector();
      forall o: GameObject, at | OnlyRequest(old(forceDeleteObjs), o, at)
        ensures (set b | b in BucketsOf(old(zoneSectors), o) && !DeletedFrom(old(forceDeleteObjs), o, b))
             == BucketsOf(old(zoneSectors), o) - Only(BucketOf(mapData, at))
      {
        DeletedByOnlyRequest(old(forceDeleteObjs), o, at, BucketsOf(old(zoneSectors), o));
      }
    }

    /** The object's deletion was requested at one place. */
    ghost predicate OnlyRequest(requests: seq<(GameObject, Place)>, o: GameObject, at: Place) {
      && (o, at) in requests
      && forall k :: 0 <= k < |requests| && requests[k].0 == o ==> requests[k].1 == at
    }

    lemma DeletedByOnlyRequest(requests: seq<(GameObject, Place)>, o: GameObject, at: Place, buckets: set<Bucket>)
      requires OnlyRequest(requests, o, at) && Nowhere !in buckets
      ensures (set b | b in buckets && !DeletedFrom(requests, o, b)) == buckets - Only(BucketOf(mapData, at))
    {
      var k :| 0 <= k < |requests| && requests[k] == (o, at);
      forall b | b in buckets
        ensures DeletedFrom(requests, o, b) <==> b in Only(BucketOf(mapData, at))
      {
        assert requests[k].0 == o && requests[k].1 == at;
      }
    }

    /** Appends the objects of one zone that are shown from `pos`, each once for every sector of the
        zone that is in sight and holds it. */
    method GetVisibleObjectsInSector(zoneType: ZoneType, pos: Vector, found: seq<GameObject>, onlyPlayer: bool)
      returns (outObjects: seq<GameObject>)
      requires Valid() && zoneType in zoneSectors
      ensures forall o: GameObject ::
                multiset(outObjects)[o] == multiset(found)[o] + TimesListedIn([zoneType], pos, onlyPlayer, o)
    {
      var gridIndex := MakeGridIndex(mapData, pos);
      var sectorIds := GetVisibleSectorIds(mapData, gridIndex);
      var gameObjects := CollectSectors(zoneType, sectorIds);
      assert Members(sectorIds) == VisibleIds(mapData, gridIndex);
      outObjects := found;
      for i := 0 to |gameObjects|
        invariant forall o: GameObject ::
                    var seen := if Shown(o, gridIndex, onlyPlayer) then multiset(gameObjects[..i])[o] else 0;
                    multiset(outObjects)[o] == multiset(found)[o] + seen
      {
        var obj := gameObjects[i];
        assert gameObjects[..i + 1] == gameObjects[..i] + [obj];
        if Shown(obj, gridIndex, onlyPlayer) {
          outObjects := outObjects + [obj];
        }
      }
      assert gameObjects[..|gameObjects|] == gameObjects;
    }

    /** The objects of the given sectors of a zone, in any order within a sector. */
    method CollectSectors(zoneType: ZoneType, sectorIds: seq<int>) returns (gameObjects: seq<GameObject>)
      requires Valid() && zoneType in zoneSectors && Distinct(sectorIds)
      ensures forall o: GameObject ::
                multiset(gameObjects)[o] == |HeldIn(zoneSectors, o, [zoneType], Members(sectorIds))|
    {
      var sector := zoneSectors[zoneType];
      gameObjects := [];
      for i := 0 to |sectorIds|
        invariant forall o: GameObject ::
                    multiset(gameObjects)[o] == |HeldIn(zoneSectors, o, [zoneType], Members(sectorIds[..i]))|
      {
        var id := sectorIds[i];
        ghost var ids := Members(sectorIds[..i]);
        assert Members(sectorIds[..i + 1]) == ids + iset{id};
        forall o: GameObject {
          HeldInOneMore(zoneSectors, o, zoneType, ids, id);
        }
        if id in sector {
          gameObjects := AppendAll(gameObjects, sector[id]);
        }
      }
      assert sectorIds[..|sectorIds|] == sectorIds;
    }

    /** Every object shown from `pos` that some bucket in sight holds, once for every such bucket. */
    method GetVisibleObjectsInSectors(pos: Vector, onlyPlayer: bool) returns (outObjects: seq<GameObject>)
      requires Valid()
      ensures forall o: GameObject :: o in outObjects <==> InSight(pos, onlyPlayer, o)
      ensures DistinctZones(mapData) ==>
                forall o: GameObject :: multiset(outObjects)[o] == TimesListed(pos, onlyPlayer, o)
      ensures DistinctZones(mapData) && FiledOnce(zoneSectors) ==> Distinct(outObjects)
    {
      var zoneTypes := GetVisibleZones(mapData, pos);
      ZoneAtKnown(mapData.zones, pos);
      outObjects := CollectZones(zoneTypes, pos, onlyPlayer);
      forall o: GameObject
        ensures o in outObjects <==> InSight(pos, onlyPlayer, o)
        ensures Distinct(zoneTypes) ==> multiset(outObjects)[o] == TimesListed(pos, onlyPlayer, o)
      {
        ZonesAddUp(zoneTypes, pos, onlyPlayer, o);
        AllZonesListed(zoneTypes, pos, onlyPlayer, o);
        assert o in outObjects <==> multiset(outObjects)[o] > 0;
      }
      if DistinctZones(mapData) && FiledOnce(zoneSectors) {
        OnceIsDistinct(pos, onlyPlayer, outObjects);
      }
    }

    /** The loop over the zones in sight. */
    method CollectZones(zoneTypes: seq<ZoneType>, pos: Vector, onlyPlayer: bool) returns (outObjects: seq<GameObject>)
      requires Valid() && forall z :: z in zoneTypes ==> z in zoneSectors
      ensures forall o: GameObject :: multiset(outObjects)[o] == TimesInZones(zoneTypes, pos, onlyPlayer, o)
    {
      outObjects := [];
      for i := 0 to |zoneTypes|
        invariant forall o: GameObject :: multiset(outObjects)[o] == TimesInZones(zoneTypes[..i], pos, onlyPlayer, o)
      {
        assert zoneTypes[i] in zoneTypes && zoneTypes[..i + 1][..i] == zoneTypes[..i];
        ghost var before: seq<GameObject> := outObjects;
        label Before:
        outObjects := GetVisibleObjectsInSector(zoneTypes[i], pos, outObjects, onlyPlayer);
        forall o: GameObject
          ensures multiset(before)[o] == TimesInZones(zoneTypes[..i], pos, onlyPlayer, o)
        {
          if fresh@Before(o) {
            assert o !in before;
            ZonesAddUp(zoneTypes[..i], pos, onlyPlayer, o);
            assert BucketsOf(zoneSectors, o) == {};
          }
        }
      }
      assert zoneTypes[..|zoneTypes|] == zoneTypes;
    }

    /** The object is shown from `pos` and held by a bucket that is looked into. */
    ghost predicate InSight(pos: Vector, onlyPlayer: bool, o: GameObject)
      requires mapData.gridSize > 0
      reads this, o
    {
      && Shown(o, MakeGridIndex(mapData, pos), onlyPlayer)
      && exists b :: b in BucketsOf(zoneSectors, o) && VisibleBucket(mapData, pos, b)
    }

    ghost function BucketsInSight(pos: Vector, o: GameObject): set<Bucket>
      requires mapData.gridSize > 0
      reads this
    {
      set b | b in BucketsOf(zoneSectors, o) && VisibleBucket(mapData, pos, b)
    }

    /** How often a query lists an object: once for every bucket in sight that holds it. */
    ghost function TimesListed(pos: Vector, onlyPlayer: bool, o: GameObject): nat
      requires mapData.gridSize > 0
      reads this, o
    {
      if Shown(o, MakeGridIndex(mapData, pos), onlyPlayer) then |BucketsInSight(pos, o)| else 0
    }

    /** The same for the buckets of some zones. */
    ghost function TimesListedIn(zones: seq<ZoneType>, pos: Vector, onlyPlayer: bool, o: GameObject): nat
      requires mapData.gridSize > 0
      reads this, o
    {
      var g := MakeGridIndex(mapData, pos);
      if Shown(o, g, onlyPlayer) then |HeldIn(zoneSectors, o, zones, VisibleIds(mapData, g))| else 0
    }

    ghost function TimesInZones(zones: seq<ZoneType>, pos: Vector, onlyPlayer: bool, o: GameObject): nat
      requires mapData.gridSize > 0
      reads this, o
    {
      if zones == [] then 0
      else
        var last := |zones| - 1;
        TimesInZones(zones[..last], pos, onlyPlayer, o) + TimesListedIn([zones[last]], pos, onlyPlayer, o)
    }

    lemma {:induction false} ZonesAddUp(zones: seq<ZoneType>, pos: Vector, onlyPlayer: bool, o: GameObject)
      requires mapData.gridSize > 0
      ensures TimesInZones(zones, pos, onlyPlayer, o) > 0 <==> TimesListedIn(zones, pos, onlyPlayer, o) > 0
      ensures Distinct(zones) ==> TimesInZones(zones, pos, onlyPlayer, o) == TimesListedIn(zones, pos, onlyPlayer, o)
      decreases |zones|
    {
      if zones != [] {
        var last := |zones| - 1;
        assert zones == zones[..last] + [zones[last]];
        ZonesAddUp(zones[..last], pos, onlyPlayer, o);
        OneMoreZone(zones[..last], zones[last], pos, onlyPlayer, o);
      }
    }

    lemma OneMoreZone(zones: seq<ZoneType>, z: ZoneType, pos: Vector, onlyPlayer: bool, o: GameObject)
      requires mapData.gridSize > 0
      ensures var before, more := TimesListedIn(zones, pos, onlyPlayer, o), TimesListedIn([z], pos, onlyPlayer, o);
              var after := TimesListedIn(zones + [z], pos, onlyPlayer, o);
              (after > 0 <==> before > 0 || more > 0) && (z !in zones ==> after == before + more)
    {
      var ids := VisibleIds(mapData, MakeGridIndex(mapData, pos));
      HeldInOneMoreZone(zoneSectors, o, zones, z, ids);
      var before, more := HeldIn(zoneSectors, o, zones, ids), HeldIn(zoneSectors, o, [z], ids);
      assert before + more == {} <==> before == {} && more == {};
    }

    lemma AllZonesListed(zoneTypes: seq<ZoneType>, pos: Vector, onlyPlayer: bool, o: GameObject)
      requires mapData.gridSize > 0 && forall z :: z in zoneTypes <==> VisibleZone(mapData, pos, z)
      ensures TimesListedIn(zoneTypes, pos, onlyPlayer, o) == TimesListed(pos, onlyPlayer, o)
      ensures TimesListed(pos, onlyPlayer, o) > 0 <==> InSight(pos, onlyPlayer, o)
    {
      var ids := VisibleIds(mapData, MakeGridIndex(mapData, pos));
      assert HeldIn(zoneSectors, o, zoneTypes, ids) == BucketsInSight(pos, o);
      if InSight(pos, onlyPlayer, o) {
        var b :| b in BucketsOf(zoneSectors, o) && VisibleBucket(mapData, pos, b);
        assert b in BucketsInSight(pos, o);
      } else if BucketsInSight(pos, o) != {} {
        var b :| b in BucketsInSight(pos, o);
      }
    }

    /** What the tick does for one player: a query from its position, and an update of its vision by
        the answer. A client in sync stays so exactly when no new object is held by two buckets in
        sight, given that ids and zone types are unique. */
    method UpdatePlayerVision(player: Vision.Player, pos: Vector) returns (ghost found: seq<GameObject>)
      requires Valid()
      modifies player
      ensures player.isEntered == old(player.isEntered)
      ensures forall o: GameObject :: o in found <==> InSight(pos, false, o)
      ensures DistinctZones(mapData) ==> forall o: GameObject :: multiset(found)[o] == TimesListed(pos, false, o)
      ensures player.isEntered ==> forall id :: id in player.visibleObjects <==>
                id != player.objectId && exists o :: o in found && o.objectId == id
      ensures player.isEntered && old(player.InSync()) && UniqueIds(found) ==>
                (player.InSync() <==>
                   forall o :: o in found && o.objectId != player.objectId && o.objectId !in old(player.visibleObjects)
                               ==> multiset(found)[o] == 1)
    {
      var currentVisible := GetVisibleObjectsInSectors(pos, false);
      if UniqueIds(currentVisible) {
        NewOnceIff(player.objectId, player.visibleObjects, currentVisible);
      }
      IdsOfListed(currentVisible);
      found := currentVisible;
      ghost var packets := player.UpdateVision(IdsOf(currentVisible));
    }

    lemma OnceIsDistinct(pos: Vector, onlyPlayer: bool, list: seq<GameObject>)
      requires mapData.gridSize > 0 && FiledOnce(zoneSectors)
      requires forall o: GameObject :: multiset(list)[o] == TimesListed(pos, onlyPlayer, o)
      ensures Distinct(list)
    {
      forall i, j | 0 <= i < j < |list|
        ensures list[i] != list[j]
      {
        if list[i] == list[j] {
          TwiceInMultiset(list, i, j);
          FiledOnceIsOneBucket(zoneSectors, list[i], BucketsInSight(pos, list[i]));
        }
      }
    }

    /** An object that one bucket holds, or none, is found exactly through that bucket. A settled
        object is held by the bucket of its place, a waiting one by that of its previous place. */
    lemma HeldIsFoundIff(pos: Vector, onlyPlayer: bool, o: GameObject, held: Bucket)
      requires mapData.gridSize > 0 && BucketsOf(zoneSectors, o) == Only(held)
      ensures InSight(pos, onlyPlayer, o) <==>
                Shown(o, MakeGridIndex(mapData, pos), onlyPlayer) && VisibleBucket(mapData, pos, held)
      ensures held == BucketOf(mapData, o.Cur()) ==>
                (InSight(pos, onlyPlayer, o) <==>
                   && IsValidGridIndex(mapData, o.gridIndex) && VisibleZone(mapData, pos, o.zoneType)
                   && Shown(o, MakeGridIndex(mapData, pos), onlyPlayer))
    {
      var g := MakeGridIndex(mapData, pos);
      assert held != Nowhere ==> held in BucketsOf(zoneSectors, o);
      if IsValidGridIndex(mapData, o.gridIndex) && Shown(o, g, onlyPlayer) {
        SectorsCoverRange(mapData, g, o.gridIndex);
      }
    }

    /** Between ticks: an object that waits in a new place is found exactly when it is shown there
        and the bucket of its previous place is in sight, and never before its first tick. */
    lemma WaitingIsFoundIff(pos: Vector, onlyPlayer: bool, o: GameObject)
      requires Recorded() && o in history && Disciplined(history[o])
      requires MovedSinceTick(history[o]) && o.Prev() != o.Cur()
      ensures InSight(pos, onlyPlayer, o) <==>
                && LeftHome(UpToTick(history[o])) && Shown(o, MakeGridIndex(mapData, pos), onlyPlayer)
                && VisibleBucket(mapData, pos, BucketOf(mapData, o.Prev()))
    {
      DisciplinedFiling(mapData, history[o]);
      var left := LeftHome(UpToTick(history[o]));
      HeldIsFoundIff(pos, onlyPlayer, o, if left then BucketOf(mapData, o.Prev()) else Nowhere);
    }

    /** At any time: an object that does not wait is found exactly when a scan of all objects on the
        map would find it, once it left the place it was constructed in. */
    lemma SettledIsFoundIff(pos: Vector, onlyPlayer: bool, o: GameObject)
      requires Recorded() && o in history && Disciplined(history[o])
      requires !MovedSinceTick(history[o]) || o.Prev() == o.Cur()
      ensures InSight(pos, onlyPlayer, o) <==>
                && LeftHome(history[o]) && IsValidGridIndex(mapData, o.gridIndex)
                && VisibleZone(mapData, pos, o.zoneType) && Shown(o, MakeGridIndex(mapData, pos), onlyPlayer)
    {
      DisciplinedFiling(mapData, history[o]);
      var left := LeftHome(history[o]);
      HeldIsFoundIff(pos, onlyPlayer, o, if left then BucketOf(mapData, o.Cur()) else Nowhere);
    }

    /** Nothing nearby is missed: an object at a position inside some zone, strictly closer than
        the visible range on both axes, satisfies what the query asks of zones and cells. */
    lemma NearIsVisible(pos: Vector, onlyPlayer: bool, o: GameObject)
      requires mapData.gridSize > 0 && o.Cur() == PlaceAt(mapData, o.vectorPos)
      requires InSomeZone(mapData, o.vectorPos) && Near(mapData, pos, o.vectorPos)
      ensures VisibleZone(mapData, pos, o.zoneType)
      ensures Shown(o, MakeGridIndex(mapData, pos), onlyPlayer) <==> if o.isPlayer then o.isValid else !onlyPlayer
    {
      ZonesCoverRange(mapData, pos, o.vectorPos);
      NearInGridRange(mapData, pos, o.vectorPos);
    }

    /** Nothing far is found: an object in the answer is less than 21 cells' width away on both axes,
        or less than 22 when it or the viewer is below the map's origin. A player among them is valid,
        and nothing else is when only players are asked for. */
    lemma FoundIsNear(pos: Vector, onlyPlayer: bool, o: GameObject)
      requires mapData.gridSize > 0 && o.Cur() == PlaceAt(mapData, o.vectorPos) && InSight(pos, onlyPlayer, o)
      ensures Within(mapData, pos, o.vectorPos, VISIBLE_RANGE + 2)
      ensures PastOrigin(mapData, pos) && PastOrigin(mapData, o.vectorPos) ==>
                Within(mapData, pos, o.vectorPos, VISIBLE_RANGE + 1)
      ensures (o.isPlayer ==> o.isValid) && (onlyPlayer ==> o.isPlayer)
    {
      InGridRangeIsNear(mapData, pos, o.vectorPos);
    }

    /** After the tick, every object moved at most once between ticks that is shown at all, inside
        some zone, between the map's edges, past its first place and strictly nearer than 20 cells'
        width on both axes, is in the answer. */
    lemma NearIsFound(pos: Vector, onlyPlayer: bool, o: GameObject)
      requires Recorded() && o in history && Ticked(history[o]) && LeftHome(history[o])
      requires if o.isPlayer then o.isValid else !onlyPlayer
      requires InSomeZone(mapData, o.vectorPos) && Near(mapData, pos, o.vectorPos)
      requires OnMap(mapData, o.vectorPos)
      ensures InSight(pos, onlyPlayer, o)
    {
      ValidPastOriginIff(mapData, o.vectorPos);
      SettledIsFoundIff(pos, onlyPlayer, o);
      NearIsVisible(pos, onlyPlayer, o);
    }

    /** A player that came from the far corner of a map of 100 by 100 cells is missed from the next
        cell until the tick. */
    lemma ArrivalIsMissed(onlyPlayer: bool, o: GameObject)
      requires mapData == SMALL_MAP
      requires Recorded() && o in history && o.isPlayer && o.isValid
      requires history[o] == [Move(Place(Town, GridIndex(90, 90))), Tick, Move(Place(Town, GridIndex(1, 1)))]
      ensures var pos := Vector(0.0, 0.0);
              && IsInGridRange(MakeGridIndex(mapData, pos), o.gridIndex)
              && Shown(o, MakeGridIndex(mapData, pos), onlyPlayer) && !InSight(pos, onlyPlayer, o)
    {
      var corner := Place(Town, GridIndex(90, 90));
      ArrivalFiling(mapData, corner, Place(Town, GridIndex(1, 1)));
      HeldIsFoundIff(Vector(0.0, 0.0), onlyPlayer, o, BucketOf(mapData, corner));
      CornerOutOfSight(mapData);
    }

    /** A player that moved twice between ticks, from one sector in sight through a second into a
        third, is held by two buckets in sight after the tick, and listed twice. */
    lemma StaleIsListedTwice(onlyPlayer: bool, o: GameObject)
      requires mapData == SMALL_MAP && Recorded() && o in history && o.isPlayer && o.isValid
      requires history[o] == [Move(Place(Town, GridIndex(25, 25))), Tick, Move(Place(Town, GridIndex(45, 25))),
                              Move(Place(Town, GridIndex(5, 5))), Tick]
      ensures TimesListed(Vector(10.0, 10.0), onlyPlayer, o) == 2
    {
      var a, c := Place(Town, GridIndex(25, 25)), Place(Town, GridIndex(5, 5));
      StaleFiling(mapData, a, Place(Town, GridIndex(45, 25)), c);
      BothInSight();
      assert BucketsInSight(Vector(10.0, 10.0), o) == {BucketOf(mapData, a), BucketOf(mapData, c)};
    }
  }

  ghost predicate UniqueIds(list: seq<GameObject>) {
    forall o, p :: o in list && p in list && o.objectId == p.objectId ==> o == p
  }

  lemma IdsOfListed(list: seq<GameObject>)
    ensures forall id :: id in IdsOf(list) <==> exists o :: o in list && o.objectId == id
  {
    forall i | 0 <= i < |list|
      ensures IdsOf(list)[i] == list[i].objectId
    {
    }
    forall o | o in list
      ensures o.objectId in IdsOf(list)
    {
      var i :| 0 <= i < |list| && list[i] == o;
      assert IdsOf(list)[i] == o.objectId;
    }
  }

  /** Listed by their ids, all that is new is listed once exactly when each such object is. */
  lemma NewOnceIff(self: Vision.ObjectId, visible: set<Vision.ObjectId>, list: seq<GameObject>)
    requires UniqueIds(list)
    ensures Vision.NewOnce(self, visible, IdsOf(list)) <==>
              forall o :: o in list && o.objectId != self && o.objectId !in visible ==> multiset(list)[o] == 1
  {
    forall o | o in list && multiset(list)[o] != 1
      ensures exists i, j :: 0 <= i < j < |list| && list[i] == list[j] == o
    {
      TwiceInList(list, o);
    }
    forall i, j | 0 <= i < j < |list| && list[i] == list[j]
      ensures multiset(list)[list[i]] >= 2
    {
      TwiceInMultiset(list, i, j);
    }
    if o :| o in list && o.objectId != self && o.objectId !in visible && multiset(list)[o] != 1 {
      var i, j :| 0 <= i < j < |list| && list[i] == list[j] == o;
      assert IdsOf(list)[i] == IdsOf(list)[j] == o.objectId;
    }
  }

  lemma {:induction false} TwiceInList<T>(list: seq<T>, x: T)
    requires multiset(list)[x] >= 2
    ensures exists i, j :: 0 <= i < j < |list| && list[i] == list[j] == x
    decreases |list|
  {
    var front, last := list[..|list| - 1], list[|list| - 1];
    assert list == front + [last];
    if last == x {
      assert x in multiset(front);
      var i :| 0 <= i < |front| && front[i] == x;
      assert list[i] == list[|list| - 1] == x;
    } else {
      TwiceInList(front, x);
      var i, j :| 0 <= i < j < |front| && front[i] == front[j] == x;
      assert list[i] == list[j] == x;
    }
  }

  lemma TwiceInMultiset<T>(list: seq<T>, i: nat, j: nat)
    requires i < j < |list| && list[i] == list[j]
    ensures multiset(list)[list[i]] >= 2
  {
    assert list == list[..j] + [list[j]] + list[j + 1..];
    assert list[..j][i] in multiset(list[..j]);
  }

  lemma FiledOnceIsOneBucket<T>(ix: Index<T>, o: T, buckets: set<Bucket>)
    requires FiledOnce(ix) && buckets <= BucketsOf(ix, o)
    ensures |buckets| <= 1
  {
    if b :| b in buckets {
      forall c | c in buckets
        ensures c == b
      {
        assert FiledIn(ix, o, In(b.zone, b.id)) && FiledIn(ix, o, In(c.zone, c.id));
      }
      assert buckets == {b};
    }
  }

  /** After a tick, if every object was moved at most once between ticks, objects are filed
      truly, and every object that ever left the place of its construction is filed. */
  lemma TickedIndexIsTrue(world: WorldManager, objects: set<GameObject>)
    requires world.Recorded() && objects <= world.history.Keys && forall o :: o in objects ==> Ticked(world.history[o])
    ensures FiledTruly(world.mapData, world.zoneSectors, objects)
    ensures forall o :: o in objects && LeftHome(world.history[o]) && IsValidGridIndex(world.mapData, o.gridIndex) ==>
              FiledIn(world.zoneSectors, o, BucketOf(world.mapData, o.Cur()))
  {
    forall o | o in objects
      ensures var f := world.FilingOf(o);
              && Settled(world.mapData, f, LeftHome(world.history[o]))
              && forall b :: b in f.buckets <==> FiledIn(world.zoneSectors, o, b)
    {
      DisciplinedFiling(world.mapData, world.history[o]);
    }
  }

  /** At any time, waiting objects included: if every filed object was moved at most once between
      ticks, none is in two buckets, so that no query lists one twice. */
  lemma DisciplinedIsFiledOnce(world: WorldManager)
    requires world.Recorded()
    requires forall o, b :: FiledIn(world.zoneSectors, o, b) ==> o in world.history && Disciplined(world.history[o])
    ensures FiledOnce(world.zoneSectors)
  {
    var ix := world.zoneSectors;
    forall z, id, z', id' | z in ix && id in ix[z] && z' in ix && id' in ix[z'] && (z != z' || id != id')
      ensures ix[z][id] !! ix[z'][id']
    {
      forall o | o in ix[z][id] && o in ix[z'][id']
        ensures false
      {
        assert FiledIn(ix, o, In(z, id)) && FiledIn(ix, o, In(z', id'));
        assert In(z, id) in BucketsOf(ix, o) && In(z', id') in BucketsOf(ix, o);
        DisciplinedFiling(world.mapData, world.history[o]);
      }
    }
  }

  lemma {:induction false} ZoneAtKnown(zones: seq<ZoneInfo>, pos: Vector)
    ensures ZoneAt(zones, pos) == Town || exists i :: 0 <= i < |zones| && zones[i].zoneType == ZoneAt(zones, pos)
    decreases |zones|
  {
    if zones != [] {
      if Contains(zones[0].worldPos, pos) {
        assert zones[0].zoneType == ZoneAt(zones, pos);
      } else {
        ZoneAtKnown(zones[1..], pos);
        if i :| 0 <= i < |zones[1..]| && zones[1..][i].zoneType == ZoneAt(zones[1..], pos) {
          assert zones[i + 1].zoneType == ZoneAt(zones, pos);
        }
      }
    }
  }

  method AppendAll<T(==)>(found: seq<T>, more: set<T>) returns (all: seq<T>)
    ensures forall o :: multiset(all)[o] == multiset(found)[o] + (if o in more then 1 else 0)
  {
    all := found;
    var rest := more;
    while rest != {}
      invariant rest <= more
      invariant forall o :: multiset(all)[o] == multiset(found)[o] + (if o in more && o !in rest then 1 else 0)
    {
      var o :| o in rest;
      rest := rest - {o};
      all := all + [o];
    }
  }
}
