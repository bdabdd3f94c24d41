/** The diff of visible objects that drives spawn and despawn packets
    (GameServer/Object/Player/Player.cpp). */
module Vision {

  type ObjectId = nat

  datatype Packet = Spawn(id: ObjectId) | Despawn(id: ObjectId)

  /** The objects a client shows, and whether it was never told to show one it already shows
      or to hide one it does not. */
  datatype Client = Client(shown: set<ObjectId>, consistent: bool)

  function Receive(c: Client, p: Packet): Client {
    match p
    case Spawn(id) => Client(c.shown + {id}, c.consistent && id !in c.shown)
    case Despawn(id) => Client(c.shown - {id}, c.consistent && id in c.shown)
  }

  function Replay(c: Client, packets: seq<Packet>): Client {
    if packets == [] then c else Receive(Replay(c, packets[..|packets| - 1]), packets[|packets| - 1])
  }

  lemma {:induction false} ReplayAppend(c: Client, a: seq<Packet>, b: seq<Packet>)
    ensures Replay(c, a + b) == Replay(Replay(c, a), b)
    decreases |b|
  {
    if b == [] {
      assert a + b == a;
    } else {
      assert (a + b)[..|a + b| - 1] == a + b[..|b| - 1];
      ReplayAppend(c, a, b[..|b| - 1]);
    }
  }

  function Ids(packets: seq<Packet>): set<ObjectId> {
    set i | 0 <= i < |packets| :: packets[i].id
  }

  lemma IdsGrow(packets: seq<Packet>, p: Packet)
    ensures Ids(packets + [p]) == Ids(packets) + {p.id}
  {
    assert forall i :: 0 <= i < |packets| ==> (packets + [p])[i] == packets[i];
    assert (packets + [p])[|packets|] == p;
  }

  /** Spawns only add to what any client shows, and despawns only take away. */
  lemma {:induction false} ReplayOneKind(c: Client, packets: seq<Packet>)
    ensures (forall p :: p in packets ==> p.Spawn?) ==> Replay(c, packets).shown == c.shown + Ids(packets)
    ensures (forall p :: p in packets ==> p.Despawn?) ==> Replay(c, packets).shown == c.shown - Ids(packets)
    decreases |packets|
  {
    if packets != [] {
      var front, last := packets[..|packets| - 1], packets[|packets| - 1];
      assert packets == front + [last];
      ReplayOneKind(c, front);
      IdsGrow(front, last);
      assert last in packets && forall p :: p in front ==> p in packets;
      assert c.shown - Ids(front) - {last.id} == c.shown - (Ids(front) + {last.id});
      assert c.shown + Ids(front) + {last.id} == c.shown + (Ids(front) + {last.id});
    }
  }

  lemma SpawnsCounted(c: Client, packets: seq<Packet>)
    requires forall p :: p in packets ==> p.Spawn?
    ensures forall id :: id in Replay(c, packets).shown <==> id in c.shown || multiset(packets)[Spawn(id)] > 0
  {
    ReplayOneKind(c, packets);
    forall id
      ensures id in Ids(packets) <==> Spawn(id) in packets
    {
      if Spawn(id) in packets {
        var i :| 0 <= i < |packets| && packets[i] == Spawn(id);
        assert packets[i].id in Ids(packets);
      }
      if id in Ids(packets) {
        var i :| 0 <= i < |packets| && packets[i].id == id;
        assert packets[i] in packets && packets[i] == Spawn(id);
      }
    }
    assert forall p :: p in packets <==> multiset(packets)[p] > 0;
  }

  /** What a client shows after an update from one visible set to another, in sync before or not. */
  function AfterUpdate(shown: set<ObjectId>, visible: set<ObjectId>, newVisible: set<ObjectId>): set<ObjectId> {
    shown + (newVisible - visible) - (visible - newVisible)
  }

  /** The client shows what the server has in view after an update exactly when everything it
      showed besides is listed now, and nothing it lacked is. */
  lemma UpdateRecoversIff(shown: set<ObjectId>, visible: set<ObjectId>, newVisible: set<ObjectId>)
    ensures AfterUpdate(shown, visible, newVisible) == newVisible
            <==> shown - visible <= newVisible && (visible - shown) !! newVisible
  {
    var after := AfterUpdate(shown, visible, newVisible);
    assert forall id :: id in after <==>
                          (id in shown || (id in newVisible && id !in visible)) && (id in newVisible || id !in visible);
    if after == newVisible {
      assert forall id :: id in newVisible <==> id in after;
    }
  }

  /** After a broadcast to a client in sync, the next update brings what it shows back to what the
      server has in view exactly when an object announced as new is listed then, or was in view, and
      one announced as gone is not listed then, or was not in view. */
  lemma AnnouncedRecoversIff(packet: Packet, visible: set<ObjectId>, newVisible: set<ObjectId>)
    ensures AfterUpdate(Receive(Client(visible, true), packet).shown, visible, newVisible) == newVisible <==>
              match packet
              case Spawn(id) => id in visible || id in newVisible
              case Despawn(id) => id !in visible || id !in newVisible
  {
    UpdateRecoversIff(Receive(Client(visible, true), packet).shown, visible, newVisible);
    assert packet.id in visible || packet.id !in visible;
  }

  /** No object that comes into view is listed twice. */
  ghost predicate NewOnce(self: ObjectId, visible: set<ObjectId>, list: seq<ObjectId>) {
    forall i, j :: 0 <= i < j < |list| && list[i] == list[j] ==> list[i] == self || list[i] in visible
  }

  /** What an update sends: nothing about the player, and exactly what turns a client that shows
      what was in view into one that shows what is; consistently exactly when no new object is
      listed twice. */
  ghost predicate Updates(packets: seq<Packet>, self: ObjectId, visible: set<ObjectId>, newVisible: set<ObjectId>,
                          list: seq<ObjectId>) {
    && (self !in visible ==> forall p :: p in packets ==> p.id != self)
    && Replay(Client(visible, true), packets) == Client(newVisible, NewOnce(self, visible, list))
  }

  lemma SpawnsThenDespawns(before: seq<Packet>, spawns: seq<Packet>, despawns: seq<Packet>, self: ObjectId,
                           visible: set<ObjectId>, newVisible: set<ObjectId>, list: seq<ObjectId>)
    requires forall id :: id in newVisible <==> id in list && id != self
    requires forall p :: p in spawns ==> p.Spawn? && p.id != self
    requires forall p :: p in despawns ==> p.Despawn? && p.id in visible
    requires Ids(spawns) == newVisible - visible && Ids(despawns) == visible - newVisible
    requires var mid := Replay(Client(visible, true), spawns);
             && (mid.consistent <==> NewOnce(self, visible, list))
             && Replay(mid, despawns) == Client(newVisible, mid.consistent)
    ensures Updates(spawns + despawns, self, visible, newVisible, list)
    ensures var was, now := Replay(Client({}, true), before), Replay(Client({}, true), before + (spawns + despawns));
            && now.shown == AfterUpdate(was.shown, visible, newVisible)
            && (was == Client(visible, true) ==> now == Client(newVisible, NewOnce(self, visible, list)))
  {
    var was := Replay(Client({}, true), before);
    ReplayAppend(Client(visible, true), spawns, despawns);
    ReplayAppend(Client({}, true), before, spawns + despawns);
    ReplayAppend(was, spawns, despawns);
    ReplayOneKind(was, spawns);
    ReplayOneKind(Replay(was, spawns), despawns);
  }

  /** The players listed are new, and each is listed once. */
  ghost predicate PlayersNewOnce(self: ObjectId, visible: set<ObjectId>, players: set<ObjectId>, list: seq<ObjectId>) {
    forall i :: 0 <= i < |list| && list[i] in players && list[i] != self ==>
      list[i] !in visible && list[i] !in list[..i]
  }

  /** What is listed besides players is in view already. */
  ghost predicate OthersKnown(self: ObjectId, visible: set<ObjectId>, players: set<ObjectId>, list: seq<ObjectId>) {
    forall id :: id in list && id !in players && id != self ==> id in visible
  }

  /** What an entry has sent and taken into view after the objects of `list`. */
  ghost predicate Entry(packets: seq<Packet>, self: ObjectId, visible: set<ObjectId>, newVisible: set<ObjectId>,
                        players: set<ObjectId>, list: seq<ObjectId>) {
    && (forall p :: p in packets ==> p.Spawn?)
    && (forall id ::
          multiset(packets)[Spawn(id)] == if id in players && id != self then multiset(list)[id] else 0)
    && (forall id :: id in newVisible <==> id in visible || (id in list && id != self))
    && (Replay(Client(visible, true), packets).consistent <==> PlayersNewOnce(self, visible, players, list))
  }

  /** One more object: nothing is sent or taken into view for the player itself. */
  lemma EntrySkipsSelf(packets: seq<Packet>, self: ObjectId, visible: set<ObjectId>, newVisible: set<ObjectId>,
                       players: set<ObjectId>, list: seq<ObjectId>)
    requires Entry(packets, self, visible, newVisible, players, list)
    ensures Entry(packets, self, visible, newVisible, players, list + [self])
  {
    NextListed(self, visible, players, list, self);
  }

  lemma EntryTakesOther(packets: seq<Packet>, self: ObjectId, visible: set<ObjectId>, newVisible: set<ObjectId>,
                        players: set<ObjectId>, list: seq<ObjectId>, id: ObjectId)
    requires Entry(packets, self, visible, newVisible, players, list) && id != self && id !in players
    ensures Entry(packets, self, visible, newVisible + {id}, players, list + [id])
  {
    NextListed(self, visible, players, list, id);
  }

  lemma EntrySpawnsPlayer(packets: seq<Packet>, self: ObjectId, visible: set<ObjectId>, newVisible: set<ObjectId>,
                          players: set<ObjectId>, list: seq<ObjectId>, id: ObjectId)
    requires Entry(packets, self, visible, newVisible, players, list) && id != self && id in players
    ensures Entry(packets + [Spawn(id)], self, visible, newVisible + {id}, players, list + [id])
  {
    NextListed(self, visible, players, list, id);
    SpawnsCounted(Client(visible, true), packets);
    assert id in list <==> multiset(list)[id] > 0;
    assert (packets + [Spawn(id)])[..|packets|] == packets;
  }

  /** What an entry sends, object by object. */
  function EntrySpawns(self: ObjectId, players: set<ObjectId>, list: seq<ObjectId>): seq<Packet> {
    if list == [] then []
    else
      var before, id := EntrySpawns(self, players, list[..|list| - 1]), list[|list| - 1];
      if id in players && id != self then before + [Spawn(id)] else before
  }

  function Others(self: ObjectId, list: seq<ObjectId>): set<ObjectId> {
    set id | id in list && id != self
  }

  lemma OthersGrow(self: ObjectId, list: seq<ObjectId>, id: ObjectId)
    ensures Others(self, list + [id]) == Others(self, list) + (if id != self then {id} else {})
  {
  }

  lemma {:induction false} EntrySpawnsMean(self: ObjectId, visible: set<ObjectId>, players: set<ObjectId>,
                                           list: seq<ObjectId>)
    ensures Entry(EntrySpawns(self, players, list), self, visible, visible + Others(self, list), players, list)
    decreases |list|
  {
    if list != [] {
      var front, id := list[..|list| - 1], list[|list| - 1];
      assert list == front + [id];
      EntrySpawnsMean(self, visible, players, front);
      OthersGrow(self, front, id);
      var sent, known := EntrySpawns(self, players, front), visible + Others(self, front);
      assert visible + Others(self, list) == known + (if id != self then {id} else {});
      if id == self {
        EntrySkipsSelf(sent, self, visible, known, players, front);
      } else if id in players {
        EntrySpawnsPlayer(sent, self, visible, known, players, front, id);
      } else {
        EntryTakesOther(sent, self, visible, known, players, front, id);
      }
    }
  }

  lemma AppendOne(a: seq<Packet>, b: seq<Packet>, p: Packet)
    ensures a + b + [p] == a + (b + [p])
  {
  }

  lemma NextListed(self: ObjectId, visible: set<ObjectId>, players: set<ObjectId>, list: seq<ObjectId>, id: ObjectId)
    ensures PlayersNewOnce(self, visible, players, list + [id]) <==>
              && PlayersNewOnce(self, visible, players, list)
              && (id in players && id != self ==> id !in visible && id !in list)
  {
    var longer := list + [id];
    forall k | 0 <= k <= |list|
      ensures longer[..k] == list[..k]
    {
    }
    assert longer[|list|] == id && list[..|list|] == list;
    assert forall k :: 0 <= k < |list| ==> longer[k] == list[k];
  }

  /** What the packets of an entry make of the client, in sync before or not. */
  lemma EntryReplayed(before: seq<Packet>, packets: seq<Packet>, self: ObjectId, visible: set<ObjectId>,
                      newVisible: set<ObjectId>, players: set<ObjectId>, list: seq<ObjectId>)
    requires Entry(packets, self, visible, newVisible, players, list)
    ensures var was, now := Replay(Client({}, true), before), Replay(Client({}, true), before + packets);
            && (forall id :: id in now.shown <==> id in was.shown || (id in list && id in players && id != self))
            && (was == Client(visible, true) ==>
                  (now == Client(newVisible, true) <==>
                     PlayersNewOnce(self, visible, players, list) && OthersKnown(self, visible, players, list)))
  {
    var was := Replay(Client({}, true), before);
    ReplayAppend(Client({}, true), before, packets);
    SpawnsCounted(was, packets);
    assert forall id :: id in list <==> multiset(list)[id] > 0;
    if was == Client(visible, true) && OthersKnown(self, visible, players, list) {
      assert Replay(was, packets).shown == newVisible;
    }
  }

  class Player {
    const objectId: ObjectId
    var isEntered: bool
    var visibleObjects: set<ObjectId>
    /** The packets sent to this player's client. */
    var sent: seq<Packet>

    constructor (objectId: ObjectId)
      ensures this.objectId == objectId && !isEntered && visibleObjects == {} && sent == [] && InSync()
    {
      this.objectId := objectId;
      isEntered, visibleObjects, sent := false, {}, [];
    }

    /** The client, replaying everything it was sent, shows what the server thinks it shows. */
    ghost predicate InSync()
      reads this
    {
      Replay(Client({}, true), sent) == Client(visibleObjects, true)
    }

    ghost function ClientShows(): set<ObjectId>
      reads this
    {
      Replay(Client({}, true), sent).shown
    }

    /** Entering the game takes everything listed into view and spawns the players listed, each as
        often as it is listed, new or not. A client in sync stays in sync exactly when those players
        are new and listed once, and everything else listed was in view before. */
    method EnterGame(objs: seq<ObjectId>, players: set<ObjectId>) returns (ghost packets: seq<Packet>)
      modifies this
      ensures isEntered && sent == old(sent) + packets
      ensures forall id :: id in visibleObjects <==> id in old(visibleObjects) || (id in objs && id != objectId)
      ensures forall p :: p in packets ==> p.Spawn?
      ensures forall id ::
                multiset(packets)[Spawn(id)] == if id in players && id != objectId then multiset(objs)[id] else 0
      ensures forall id :: id in ClientShows() <==>
                id in old(ClientShows()) || (id in objs && id in players && id != objectId)
      ensures old(InSync()) ==>
                (InSync() <==> PlayersNewOnce(objectId, old(visibleObjects), players, objs)
                               && OthersKnown(objectId, old(visibleObjects), players, objs))
    {
      packets := TakeIntoView(objs, players);
      EntrySpawnsMean(objectId, old(visibleObjects), players, objs);
      isEntered := true;
      EntryReplayed(old(sent), packets, objectId, old(visibleObjects), visibleObjects, players, objs);
    }

    /** The loop over what the entering player sees. */
    method TakeIntoView(objs: seq<ObjectId>, players: set<ObjectId>) returns (ghost packets: seq<Packet>)
      modifies this`visibleObjects, this`sent
      ensures sent == old(sent) + packets && packets == EntrySpawns(objectId, players, objs)
      ensures visibleObjects == old(visibleObjects) + Others(objectId, objs)
    {
      packets := [];
      for i := 0 to |objs|
        invariant sent == old(sent) + packets && packets == EntrySpawns(objectId, players, objs[..i])
        invariant visibleObjects == old(visibleObjects) + Others(objectId, objs[..i])
      {
        var id := objs[i];
        assert objs[..i + 1][..i] == objs[..i] && objs[..i + 1] == objs[..i] + [id];
        OthersGrow(objectId, objs[..i], id);
        if id == objectId {
          continue;
        }
        visibleObjects := visibleObjects + {id};
        if id in players {
          AppendOne(old(sent), packets, Spawn(id));
          sent := sent + [Spawn(id)];
          packets := packets + [Spawn(id)];
        }
      }
      assert objs[..|objs|] == objs;
    }

    /** An entry or an exit broadcast to this player's client by another player: the visible set
        does not record it, so a client in sync always falls out of sync. */
    method Announce(packet: Packet)
      modifies this`sent
      ensures sent == old(sent) + [packet] && ClientShows() == Receive(Client(old(ClientShows()), true), packet).shown
      ensures old(InSync()) ==> !InSync()
    {
      sent := sent + [packet];
      assert sent[..|sent| - 1] == old(sent);
    }

    /** Brings the client from the old visible set to the new one, which leaves the player out.
        A client in sync stays in sync exactly when no new object is listed twice. */
    method UpdateVision(currentVisible: seq<ObjectId>) returns (ghost packets: seq<Packet>)
      modifies this`visibleObjects, this`sent
      ensures sent == old(sent) + packets
      ensures !isEntered ==> visibleObjects == old(visibleObjects) && packets == []
      ensures isEntered ==> forall id :: id in visibleObjects <==> id in currentVisible && id != objectId
      ensures isEntered ==> Updates(packets, objectId, old(visibleObjects), visibleObjects, currentVisible)
      ensures isEntered ==> ClientShows() == AfterUpdate(old(ClientShows()), old(visibleObjects), visibleObjects)
      ensures isEntered && old(InSync()) ==> (InSync() <==> NewOnce(objectId, old(visibleObjects), currentVisible))
    {
      packets := [];
      if !isEntered {
        return;
      }
      if currentVisible == [] && visibleObjects == {} {
        assert sent + [] == sent;
        return;
      }
      var newVisible := WithoutSelf(currentVisible);
      ghost var before := sent;
      ghost var spawns := SendSpawnPacket(currentVisible);
      ghost var despawns := SendDespawnPacket(newVisible, Replay(Client(visibleObjects, true), spawns));
      packets := spawns + despawns;
      assert sent == before + packets;
      SpawnsThenDespawns(before, spawns, despawns, objectId, visibleObjects, newVisible, currentVisible);
      visibleObjects := newVisible;
    }

    method WithoutSelf(currentVisible: seq<ObjectId>) returns (newVisible: set<ObjectId>)
      ensures forall id :: id in newVisible <==> id in currentVisible && id != objectId
    {
      newVisible := {};
      for i := 0 to |currentVisible|
        invariant forall id :: id in newVisible <==> id in currentVisible[..i] && id != objectId
      {
        if currentVisible[i] != objectId {
          newVisible := newVisible + {currentVisible[i]};
        }
      }
      assert currentVisible[..|currentVisible|] == currentVisible;
    }

    method SendSpawnPacket(currentVisible: seq<ObjectId>) returns (ghost packets: seq<Packet>)
      modifies this`sent
      ensures sent == old(sent) + packets
      ensures forall p :: p in packets ==> p.Spawn? && p.id != objectId
      ensures forall id :: id in Ids(packets) <==> id !in visibleObjects && id in currentVisible && id != objectId
      ensures var c := Replay(Client(visibleObjects, true), packets);
              && (forall id :: id in c.shown <==> id in visibleObjects || (id in currentVisible && id != objectId))
              && (c.consistent <==> NewOnce(objectId, visibleObjects, currentVisible))
    {
      packets := [];
      ghost var c := Client(visibleObjects, true);
      for i := 0 to |currentVisible|
        invariant sent == old(sent) + packets
        invariant forall p :: p in packets ==> p.Spawn? && p.id != objectId
        invariant forall id :: id in Ids(packets) <==>
                    id !in visibleObjects && id in currentVisible[..i] && id != objectId
        invariant c == Replay(Client(visibleObjects, true), packets)
        invariant forall id :: id in c.shown <==> id in visibleObjects || (id in currentVisible[..i] && id != objectId)
        invariant c.consistent <==> NewOnce(objectId, visibleObjects, currentVisible[..i])
      {
        var id := currentVisible[i];
        assert currentVisible[..i + 1] == currentVisible[..i] + [id];
        if id == objectId || id in visibleObjects {
          continue;
        }
        sent := sent + [Spawn(id)];
        assert (packets + [Spawn(id)])[..|packets|] == packets;
        IdsGrow(packets, Spawn(id));
        packets := packets + [Spawn(id)];
        c := Receive(c, Spawn(id));
      }
      assert currentVisible[..|currentVisible|] == currentVisible;
    }

    method SendDespawnPacket(newVisible: set<ObjectId>, ghost from: Client) returns (ghost packets: seq<Packet>)
      requires from.shown == visibleObjects + newVisible
      modifies this`sent
      ensures sent == old(sent) + packets
      ensures forall p :: p in packets ==> p.Despawn? && p.id in visibleObjects
      ensures Ids(packets) == visibleObjects - newVisible
      ensures Replay(from, packets) == Client(newVisible, from.consistent)
    {
      packets := [];
      var rest := visibleObjects;
      while rest != {}
        invariant rest <= visibleObjects && sent == old(sent) + packets
        invariant forall p :: p in packets ==> p.Despawn? && p.id in visibleObjects
        invariant Ids(packets) == (visibleObjects - rest) - newVisible
        invariant Replay(from, packets) == Client(rest + newVisible, from.consistent)
      {
        var objId :| objId in rest;
        rest := rest - {objId};
        if objId !in newVisible {
          sent := sent + [Despawn(objId)];
          assert (packets + [Despawn(objId)])[..|packets|] == packets;
          IdsGrow(packets, Despawn(objId));
          packets := packets + [Despawn(objId)];
        }
      }
    }
  }
}
