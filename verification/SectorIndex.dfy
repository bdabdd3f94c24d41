/** The index of objects by zone and sector, kept up to date by a deferred tick
    (GameServer/World/WorldManager.cpp, GameServer/Object/GameObject.cpp). */
module SectorIndex {
  import opened SectorIds
  import opened WorldMap

  datatype Place = Place(zone: ZoneType, grid: GridIndex)

  /** Where an object in a place is filed; cells outside the map are filed nowhere. */
  datatype Bucket = Nowhere | In(zone: ZoneType, id: int)

  function SectorOf(m: MapData, g: GridIndex): nat
    requires IsValidGridIndex(m, g)
  {
    SectorId(TruncDiv(g.x, SECTOR_SIZE), TruncDiv(g.y, SECTOR_SIZE))
  }

  function BucketOf(m: MapData, p: Place): Bucket {
    if IsValidGridIndex(m, p.grid) then In(p.zone, SectorOf(m, p.grid)) else Nowhere
  }

  function Only(b: Bucket): set<Bucket> {
    if b == Nowhere then {} else {b}
  }

  // ---- one object's filing, over its whole life ----

  /** The place before the last position update, the current one, whether an update of the
      index was requested, and the buckets that hold the object. */
  datatype Filing = Filing(prev: Place, cur: Place, pending: bool, buckets: set<Bucket>)

  /** A position update, an explicit request to update the index, or the tick. */
  datatype Event = Move(to: Place) | Request | Tick

  function Apply(m: MapData, f: Filing, e: Event): Filing {
    match e
    case Move(p) => Filing(f.cur, p, f.pending || f.cur != p, f.buckets)
    case Request => f.(pending := true)
    case Tick =>
      if f.pending && f.prev != f.cur
      then f.(pending := false, buckets := Refiled(m, f.buckets, f.prev, f.cur))
      else f.(pending := false)
  }

  function ApplyAll(m: MapData, f: Filing, events: seq<Event>): Filing {
    if events == [] then f else Apply(m, ApplyAll(m, f, Init(events)), Last(events))
  }

  predicate Exact(m: MapData, f: Filing) {
    f.buckets == Only(BucketOf(m, f.cur))
  }

  /** Where every object is constructed, without being filed. */
  const HOME := Place(Town, GridIndex(0, 0))
  const FRESH := Filing(HOME, HOME, false, {})

  function Init(events: seq<Event>): seq<Event>
    requires events != []
  {
    events[..|events| - 1]
  }

  function Last(events: seq<Event>): Event
    requires events != []
  {
    events[|events| - 1]
  }

  predicate MovedSinceTick(events: seq<Event>) {
    events != [] && !Last(events).Tick? && (Last(events).Move? || MovedSinceTick(Init(events)))
  }

  /** At most one position update between two ticks. */
  predicate Disciplined(events: seq<Event>) {
    events != [] ==> Disciplined(Init(events)) && (Last(events).Move? ==> !MovedSinceTick(Init(events)))
  }

  ghost predicate LeftHome(events: seq<Event>) {
    exists i :: 0 <= i < |events| && events[i].Move? && events[i].to != HOME
  }

  /** The object is filed by where it is; before it first leaves the place it was constructed
      in, it is filed nowhere. */
  ghost predicate Settled(m: MapData, f: Filing, left: bool) {
    if left then Exact(m, f) else f.prev == HOME && f.cur == HOME && f.buckets == {}
  }

  /** The object has moved and waits for the tick, filed by where it was, or not filed yet if it
      had not left the place it was constructed in. */
  ghost predicate Waiting(m: MapData, f: Filing, leftBefore: bool) {
    && f.pending && f.prev != f.cur
    && if leftBefore then f.buckets == Only(BucketOf(m, f.prev)) else f.prev == HOME && f.buckets == {}
  }

  /** The events up to the last tick. */
  function UpToTick(events: seq<Event>): seq<Event> {
    if events == [] || Last(events).Tick? then events else UpToTick(Init(events))
  }

  lemma {:induction false} LeftUpToTick(events: seq<Event>)
    ensures LeftHome(UpToTick(events)) ==> LeftHome(events)
    ensures !MovedSinceTick(events) ==> (LeftHome(UpToTick(events)) <==> LeftHome(events))
    decreases |events|
  {
    if events != [] && !Last(events).Tick? {
      LeftUpToTick(Init(events));
      LeftHomeGrows(events);
    }
  }

  lemma {:induction false} DisciplinedFiling(m: MapData, events: seq<Event>)
    requires Disciplined(events)
    ensures var f := ApplyAll(m, FRESH, events);
            if MovedSinceTick(events) && f.prev != f.cur
            then Waiting(m, f, LeftHome(UpToTick(events))) && LeftHome(events)
            else Settled(m, f, LeftHome(events))
    decreases |events|
  {
    if events != [] {
      DisciplinedFiling(m, Init(events));
      LeftHomeGrows(events);
      LeftUpToTick(Init(events));
    }
  }

  lemma LeftHomeGrows(events: seq<Event>)
    requires events != []
    ensures LeftHome(events) <==> LeftHome(Init(events)) || (Last(events).Move? && Last(events).to != HOME)
  {
    if i :| 0 <= i < |Init(events)| && Init(events)[i].Move? && Init(events)[i].to != HOME {
      assert events[i] == Init(events)[i];
    }
    if i :| 0 <= i < |events| && events[i].Move? && events[i].to != HOME {
      assert i < |events| - 1 ==> Init(events)[i] == events[i];
    }
  }

  /** With at most one position update between ticks, a tick makes the object's filing exact
      exactly when the object has ever left the place it was constructed in, or that place is
      outside the map. */
  lemma TickMakesExactIff(m: MapData, events: seq<Event>)
    requires Disciplined(events) && events != [] && Last(events).Tick?
    ensures Exact(m, ApplyAll(m, FRESH, events)) <==> LeftHome(events) || BucketOf(m, HOME) == Nowhere
  {
    DisciplinedFiling(m, events);
  }

  /** The updates of one object between two ticks. */
  function Moves(places: seq<Place>): seq<Event> {
    seq(|places|, i requires 0 <= i < |places| => Move(places[i]))
  }

  lemma {:induction false} AfterMoves(m: MapData, f: Filing, places: seq<Place>)
    requires places != []
    ensures var g := ApplyAll(m, f, Moves(places));
            && g.cur == places[|places| - 1]
            && g.prev == (if |places| == 1 then f.cur else places[|places| - 2])
            && g.buckets == f.buckets
            && (g.pending <==> || f.pending || f.cur != places[0]
                               || exists i :: 0 <= i < |places| - 1 && places[i] != places[i + 1])
    decreases |places|
  {
    var moves, before := Moves(places), places[..|places| - 1];
    assert moves[..|moves| - 1] == Moves(before);
    if |places| == 1 {
      assert Moves(before) == [];
    } else {
      AfterMoves(m, f, before);
      if i :| 0 <= i < |before| - 1 && before[i] != before[i + 1] {
        assert places[i] != places[i + 1];
      }
      if i :| 0 <= i < |places| - 1 && places[i] != places[i + 1] {
        assert i < |before| - 1 ==> before[i] != before[i + 1];
      }
    }
  }

  /** What a tick makes of any filing: it only looks at the last two places, and takes the object
      out of no bucket but that of the last but one. */
  lemma TickExactIff(m: MapData, f: Filing)
    ensures Exact(m, Apply(m, f, Tick)) <==>
              if f.pending && f.prev != f.cur
              then f.buckets - Only(BucketOf(m, f.prev)) <= Only(BucketOf(m, f.cur))
              else f.buckets == Only(BucketOf(m, f.cur))
  {
    var kept, cur := f.buckets - Only(BucketOf(m, f.prev)), Only(BucketOf(m, f.cur));
    assert kept <= cur ==> kept + cur == cur;
  }

  function LastButOne(f: Filing, places: seq<Place>): Place
    requires places != []
  {
    if |places| == 1 then f.cur else places[|places| - 2]
  }

  /** From any filing at all, pending or not, and after any number of updates before the tick:
      exactly when the tick files the object where it is. */
  lemma ManyMovesExactIff(m: MapData, f: Filing, places: seq<Place>)
    requires places != []
    ensures var prev, last := LastButOne(f, places), places[|places| - 1];
            Exact(m, Apply(m, ApplyAll(m, f, Moves(places)), Tick)) <==>
              if prev != last
              then f.buckets - Only(BucketOf(m, prev)) <= Only(BucketOf(m, last))
              else f.buckets == Only(BucketOf(m, last))
  {
    AfterMoves(m, f, places);
    TickExactIff(m, ApplyAll(m, f, Moves(places)));
  }

  lemma OnlyWithout(held: Bucket, prev: Bucket, last: Bucket)
    ensures Only(held) - Only(prev) <= Only(last) <==> held == Nowhere || held == prev || held == last
    ensures Only(held) == Only(last) <==> held == last
  {
    assert held != Nowhere ==> held in Only(held) && (held != prev ==> held in Only(held) - Only(prev));
    assert last != Nowhere ==> last in Only(last);
  }

  /** For an object filed in one bucket at most: it must be filed where it ends up, or the last
      update must change its place and come from the bucket that holds it. A settled object is
      held by the bucket of its place, a waiting one by that of its previous place. */
  lemma HeldMovesExactIff(m: MapData, f: Filing, held: Bucket, places: seq<Place>)
    requires places != [] && f.buckets == Only(held)
    ensures var prev, last := LastButOne(f, places), places[|places| - 1];
            Exact(m, Apply(m, ApplyAll(m, f, Moves(places)), Tick)) <==>
              held == BucketOf(m, last) || (prev != last && (held == Nowhere || held == BucketOf(m, prev)))
  {
    ManyMovesExactIff(m, f, places);
    OnlyWithout(held, BucketOf(m, LastButOne(f, places)), BucketOf(m, places[|places| - 1]));
  }

  /** A new object is filed by its first tick exactly when its last two updates are to different
      places, or the last is off the map. */
  lemma FreshMovesExactIff(m: MapData, places: seq<Place>)
    requires places != []
    ensures var prev, last := LastButOne(FRESH, places), places[|places| - 1];
            Exact(m, Apply(m, ApplyAll(m, FRESH, Moves(places)), Tick)) <==>
              prev != last || BucketOf(m, last) == Nowhere
  {
    HeldMovesExactIff(m, FRESH, Nowhere, places);
  }

  ghost predicate StaysAt(events: seq<Event>, p: Place) {
    forall e :: e in events && e.Move? ==> e.to == p
  }

  lemma {:induction false} UnfiledUntilItLeaves(m: MapData, f: Filing, events: seq<Event>)
    requires f.prev == f.cur && f.buckets == {} && StaysAt(events, f.cur)
    ensures var g := ApplyAll(m, f, events); g.prev == f.cur && g.cur == f.cur && g.buckets == {}
    decreases |events|
  {
    if events != [] {
      UnfiledUntilItLeaves(m, f, Init(events));
    }
  }

  lemma {:induction false} ApplyAllAppend(m: MapData, f: Filing, first: seq<Event>, more: seq<Event>)
    ensures ApplyAll(m, f, first + more) == ApplyAll(m, ApplyAll(m, f, first), more)
    decreases |more|
  {
    if more == [] {
      assert first + more == first;
    } else {
      assert Init(first + more) == first + Init(more);
      ApplyAllAppend(m, f, first, Init(more));
    }
  }

  /** A player that enters at any place and moves inside its cell before the tick is filed nowhere,
      whatever updates, requests and ticks follow, until it leaves the cell; the tick after that
      files it. */
  lemma EntryMoveIsNeverFiled(m: MapData, p: Place, more: seq<Event>, q: Place)
    requires StaysAt(more, p) && q != p
    ensures var f := ApplyAll(m, FRESH, [Move(p), Request, Move(p)] + more);
            f.buckets == {} && Exact(m, Apply(m, Apply(m, f, Move(q)), Tick))
  {
    var entry := [Move(p), Request, Move(p)];
    AfterMoves(m, FRESH, [p]);
    assert Init(entry) == [Move(p), Request] && Init(Init(entry)) == [Move(p)] == Moves([p]);
    assert ApplyAll(m, FRESH, Init(entry)).cur == p;
    ApplyAllAppend(m, FRESH, entry, more);
    UnfiledUntilItLeaves(m, ApplyAll(m, FRESH, entry), more);
  }

  lemma ArrivalFiling(m: MapData, from: Place, to: Place)
    requires from != HOME
    ensures ApplyAll(m, FRESH, [Move(from), Tick, Move(to)]) == Filing(from, to, from != to, Only(BucketOf(m, from)))
  {
    AfterMoves(m, FRESH, [from]);
    var events := [Move(from), Tick, Move(to)];
    assert Init(events) == [Move(from), Tick] && Init(Init(events)) == [Move(from)] == Moves([from]);
    assert {} - Only(BucketOf(m, HOME)) + Only(BucketOf(m, from)) == Only(BucketOf(m, from));
    var filed := ApplyAll(m, FRESH, Init(events));
    assert filed == Filing(HOME, from, false, Only(BucketOf(m, from)));
  }

  /** Two updates in one tick, through a second bucket: the object stays filed in the first. */
  lemma TwoMovesLeaveStaleEntry(m: MapData, a: Place, b: Place, c: Place)
    requires BucketOf(m, a) != Nowhere && BucketOf(m, b) != BucketOf(m, a) && BucketOf(m, c) != BucketOf(m, a) && b != c
    ensures var f := Filing(a, a, false, Only(BucketOf(m, a)));
            BucketOf(m, a) in Apply(m, ApplyAll(m, f, Moves([b, c])), Tick).buckets
  {
    AfterMoves(m, Filing(a, a, false, Only(BucketOf(m, a))), [b, c]);
  }

  /** What the tick does to an object whose deletion was requested at a place: the deletion comes
      first, then the update. */
  function TickAfterDelete(m: MapData, f: Filing, at: Place): Filing {
    Apply(m, f.(buckets := f.buckets - Only(BucketOf(m, at))), Tick)
  }

  /** For any filing at all: a deletion leaves the object filed nowhere exactly when no bucket but
      that of the place it was requested at holds the object, or, if a move is waiting, when the move
      left the map and no other bucket but that and the one it left holds the object. */
  lemma DeletionLastsIff(m: MapData, f: Filing, at: Place)
    ensures TickAfterDelete(m, f, at).buckets == {} <==>
              if f.pending && f.prev != f.cur
              then BucketOf(m, f.cur) == Nowhere && f.buckets <= Only(BucketOf(m, f.prev)) + Only(BucketOf(m, at))
              else f.buckets <= Only(BucketOf(m, at))
  {
    var gone, prev, cur := Only(BucketOf(m, at)), Only(BucketOf(m, f.prev)), Only(BucketOf(m, f.cur));
    assert f.buckets - gone == {} <==> f.buckets <= gone;
    assert f.buckets - gone - prev == {} <==> f.buckets <= prev + gone;
    assert BucketOf(m, f.cur) != Nowhere ==> BucketOf(m, f.cur) in cur;
    assert cur == {} ==> f.buckets - gone - prev + cur == f.buckets - gone - prev;
  }

  /** After at most one move between ticks, a deletion requested where the object is lasts exactly
      when no move of it is waiting, or its move took it off the map. */
  lemma DisciplinedDeletionLastsIff(m: MapData, events: seq<Event>)
    requires Disciplined(events)
    ensures var f := ApplyAll(m, FRESH, events);
            TickAfterDelete(m, f, f.cur).buckets == {} <==>
              !(f.pending && f.prev != f.cur) || BucketOf(m, f.cur) == Nowhere
  {
    DisciplinedFiling(m, events);
    var f := ApplyAll(m, FRESH, events);
    DeletionLastsIff(m, f, f.cur);
  }

  lemma StaleFiling(m: MapData, a: Place, b: Place, c: Place)
    requires a != HOME
    ensures var f := ApplyAll(m, FRESH, [Move(a), Tick, Move(b), Move(c), Tick]);
            && f.prev == b && f.cur == c && !f.pending
            && f.buckets == if b != c then Refiled(m, Only(BucketOf(m, a)), b, c) else Only(BucketOf(m, a))
  {
    ArrivalFiling(m, a, b);
    var events := [Move(a), Tick, Move(b), Move(c), Tick];
    assert Init(events) == [Move(a), Tick, Move(b), Move(c)] && Init(Init(events)) == [Move(a), Tick, Move(b)];
    var moved := ApplyAll(m, FRESH, Init(events));
    assert moved == Filing(b, c, a != b || b != c, Only(BucketOf(m, a)));
  }

  /** An object that moved twice in one tick through a second bucket into a third is still filed in
      the first after its deletion, although no move of it waits. */
  lemma StaleEntryOutlivesDeletion(m: MapData, a: Place, b: Place, c: Place)
    requires a != HOME && b != c && BucketOf(m, a) != Nowhere
    requires BucketOf(m, b) != BucketOf(m, a) && BucketOf(m, c) != BucketOf(m, a)
    ensures var f := ApplyAll(m, FRESH, [Move(a), Tick, Move(b), Move(c), Tick]);
            f.cur == c && !f.pending && BucketOf(m, a) in TickAfterDelete(m, f, c).buckets
  {
    StaleFiling(m, a, b, c);
  }

  // ---- the index ----

  type Index<T> = map<ZoneType, map<int, set<T>>>

  predicate FiledIn<T(==)>(ix: Index<T>, o: T, b: Bucket) {
    b.In? && b.zone in ix && b.id in ix[b.zone] && o in ix[b.zone][b.id]
  }

  function AddTo<T(==)>(ix: Index<T>, o: T, z: ZoneType, id: int): Index<T>
    requires z in ix
  {
    ix[z := ix[z][id := (if id in ix[z] then ix[z][id] else {}) + {o}]]
  }

  /** An emptied sector is dropped. */
  function RemoveFrom<T(==)>(ix: Index<T>, o: T, z: ZoneType, id: int): Index<T>
    requires z in ix
  {
    if id !in ix[z] then ix
    else
      var rest := ix[z][id] - {o};
      ix[z := if rest == {} then ix[z] - {id} else ix[z][id := rest]]
  }

  /** The buckets that hold an object. */
  ghost function BucketsOf<T>(ix: Index<T>, o: T): set<Bucket> {
    set z, id | z in ix && id in ix[z] && o in ix[z][id] :: In(z, id)
  }

  /** Where the tick files an object that was in `buckets`. */
  function Refiled(m: MapData, buckets: set<Bucket>, prev: Place, cur: Place): set<Bucket> {
    buckets - Only(BucketOf(m, prev)) + Only(BucketOf(m, cur))
  }

  lemma AddFiles<T>(ix: Index<T>, o: T, z: ZoneType, id: int, other: T)
    requires z in ix
    ensures BucketsOf(AddTo(ix, o, z, id), other) == BucketsOf(ix, other) + (if other == o then {In(z, id)} else {})
  {
    var ix' := AddTo(ix, o, z, id);
    forall b
      ensures FiledIn(ix', other, b) <==> FiledIn(ix, other, b) || (other == o && b == In(z, id))
    {
    }
  }

  lemma RemoveUnfiles<T>(ix: Index<T>, o: T, z: ZoneType, id: int, other: T)
    requires z in ix
    ensures BucketsOf(RemoveFrom(ix, o, z, id), other)
         == BucketsOf(ix, other) - (if other == o then {In(z, id)} else {})
  {
    var ix' := RemoveFrom(ix, o, z, id);
    forall b
      ensures FiledIn(ix', other, b) <==> FiledIn(ix, other, b) && !(other == o && b == In(z, id))
    {
      if b.In? && b.zone in ix {
        if b.zone == z && b.id == id && id in ix[z] {
          assert other in ix[z][id] - {o} <==> other in ix[z][id] && other != o;
        } else {
          assert b.zone in ix' && (b.id in ix'[b.zone] <==> b.id in ix[b.zone]);
        }
      }
    }
  }
}
