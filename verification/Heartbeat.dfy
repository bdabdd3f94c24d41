/** The session table and its periodic ping (ServerCore/Network/SessionManager.cpp). */
module Heartbeat {

  type SessionId = nat

  const PING_PONG_DIFF: nat := 6
  const TWO64: nat := 0x1_0000_0000_0000_0000

  type UInt64 = n: nat | n < TWO64

  /** What the table knows of a session. */
  datatype Status = Status(ping: UInt64, pong: UInt64, closed: bool, timedOut: bool)

  /** The difference of the counters, on 64 unsigned bits. */
  function Unanswered(s: Status): nat {
    (s.ping - s.pong) % TWO64
  }

  /** What one heartbeat makes of a session: it leaves the table, or stays with a new status. */
  datatype Outcome = Removed | Stays(status: Status)

  function Beat(s: Status): Outcome {
    if s.closed || s.timedOut then Removed
    else if Unanswered(s) >= PING_PONG_DIFF then Stays(s.(closed := true))
    else Stays(s.(ping := (s.ping + 1) % TWO64))
  }

  class Session {
    var ping: UInt64
    var pong: UInt64
    var isClosed: bool
    /** More than the timeout has passed since the last completed send. */
    var timedOut: bool

    constructor ()
      ensures Now() == Status(0, 0, false, false)
    {
      ping, pong, isClosed, timedOut := 0, 0, false, false;
    }

    function Now(): Status
      reads this
    {
      Status(ping, pong, isClosed, timedOut)
    }

    method Close()
      modifies this`isClosed
      ensures isClosed
    {
      isClosed := true;
    }

    /** The service's reaction to a heartbeat: a ping is sent and counted. */
    method OnHeartbeat()
      modifies this`ping
      ensures ping == (old(ping) + 1) % TWO64
    {
      ping := (ping + 1) % TWO64;
    }
  }

  class SessionManager {
    var sessions: map<SessionId, Session>

    constructor ()
      ensures sessions == map[]
    {
      sessions := map[];
    }

    ghost predicate Valid()
      reads this
    {
      forall a, b :: a in sessions && b in sessions && a != b ==> sessions[a] != sessions[b]
    }

    /** An id already present keeps its session. */
    method Add(id: SessionId, session: Session)
      requires Valid() && session !in sessions.Values
      modifies this
      ensures Valid()
      ensures sessions == if id in old(sessions) then old(sessions) else old(sessions)[id := session]
    {
      if id !in sessions {
        sessions := sessions[id := session];
      }
    }

    /** One heartbeat, with a service: every session takes its Beat step; those removed have
        been closed. */
    method Heartbeat()
      requires Valid()
      modifies this, sessions.Values
      ensures Valid()
      ensures forall id :: id in sessions <==> id in old(sessions) && Beat(old(sessions[id].Now())).Stays?
      ensures forall id :: id in sessions ==> sessions[id] == old(sessions)[id]
                                              && Stays(sessions[id].Now()) == Beat(old(sessions[id].Now()))
      ensures forall id :: id in old(sessions) && id !in sessions ==> old(sessions)[id].isClosed
      ensures forall id :: id in old(sessions) && old(sessions[id].isClosed || sessions[id].timedOut) ==>
                id !in sessions
    {
      var liveSessions, timeoutSessions := Partition();
      CloseAll(timeoutSessions);
      sessions := sessions - timeoutSessions;
      PingAll(liveSessions);
    }

    method Partition() returns (liveSessions: set<SessionId>, timeoutSessions: set<SessionId>)
      ensures liveSessions + timeoutSessions == sessions.Keys
      ensures forall id :: id in sessions ==>
                (id in timeoutSessions <==> sessions[id].isClosed || sessions[id].timedOut)
      ensures liveSessions !! timeoutSessions
    {
      liveSessions, timeoutSessions := {}, {};
      var ids := sessions.Keys;
      while ids != {}
        invariant ids <= sessions.Keys && liveSessions + timeoutSessions == sessions.Keys - ids
        invariant forall id :: id in timeoutSessions ==> sessions[id].isClosed || sessions[id].timedOut
        invariant forall id :: id in liveSessions ==> !sessions[id].isClosed && !sessions[id].timedOut
      {
        var id :| id in ids;
        ids := ids - {id};
        if sessions[id].isClosed || sessions[id].timedOut {
          timeoutSessions := timeoutSessions + {id};
        } else {
          liveSessions := liveSessions + {id};
        }
      }
    }

    /** Pings the sessions that answer, and closes those that do not. */
    method PingAll(ids: set<SessionId>)
      requires Valid() && ids <= sessions.Keys
      requires forall id :: id in ids ==> !sessions[id].isClosed && !sessions[id].timedOut
      modifies set id | id in ids :: sessions[id]
      ensures forall id :: id in ids ==> Stays(sessions[id].Now()) == Beat(old(sessions[id].Now()))
    {
      var rest := ids;
      while rest != {}
        invariant rest <= ids
        invariant forall id :: id in rest ==> sessions[id].Now() == old(sessions[id].Now())
        invariant forall id :: id in ids - rest ==> Stays(sessions[id].Now()) == Beat(old(sessions[id].Now()))
      {
        var id :| id in rest;
        rest := rest - {id};
        var session := sessions[id];
        if (session.ping - session.pong) % TWO64 >= PING_PONG_DIFF {
          session.Close();
        } else {
          session.OnHeartbeat();
        }
      }
    }

    method CloseAll(ids: set<SessionId>)
      requires Valid() && ids <= sessions.Keys
      modifies set id | id in ids :: sessions[id]
      ensures forall id :: id in ids ==> sessions[id].isClosed
      ensures forall id :: id in sessions && id !in ids ==> sessions[id].Now() == old(sessions[id].Now())
    {
      var rest := ids;
      while rest != {}
        invariant rest <= ids
        invariant forall id :: id in ids - rest ==> sessions[id].isClosed
        invariant forall id :: id in sessions && id !in ids ==> sessions[id].Now() == old(sessions[id].Now())
      {
        var id :| id in rest;
        rest := rest - {id};
        sessions[id].Close();
      }
    }
  }

  // ---- what the counters mean ----

  /** A heartbeat closes a session that is open and not timed out exactly when it owes six
      answers or more, or has answered more often than it was asked: the difference is
      unsigned. (A surplus so large that it wraps around is not noticed.) */
  lemma ClosedByHeartbeatIff(s: Status)
    requires !s.closed && !s.timedOut
    ensures Beat(s).Stays? && (Beat(s).status.closed <==>
              s.ping >= s.pong + PING_PONG_DIFF || (s.pong > s.ping && s.pong - s.ping <= TWO64 - PING_PONG_DIFF))
  {
    if s.pong > s.ping {
      assert Unanswered(s) == s.ping - s.pong + TWO64;
    } else {
      assert Unanswered(s) == s.ping - s.pong;
    }
  }

  /** A heartbeat takes out of the table exactly the sessions that are closed or timed out, whatever
      their counters; any other is pinged or closed, never both. */
  lemma RemovedIff(s: Status)
    ensures Beat(s).Removed? <==> s.closed || s.timedOut
    ensures Beat(s).Stays? ==> (Beat(s).status.ping == s.ping <==> Beat(s).status.closed)
    ensures Beat(s).Stays? ==> Beat(s).status.pong == s.pong && Beat(s).status.timedOut == s.timedOut
  {
    assert (s.ping + 1) % TWO64 != s.ping;
  }

  // ---- every run of one session in the table ----

  datatype Event = Tick | Pong

  /** Pings outnumber pongs by at most six, and a client answers no more than it was asked. */
  predicate Balanced(s: Status) {
    s.pong <= s.ping <= s.pong + PING_PONG_DIFF
  }

  /** One event in the life of a session in the table that never times out. A pong counts only
      when it answers a ping, and the counters stay below their limit. */
  ghost predicate Next(s: Status, e: Event, s': Status) {
    && !s.timedOut && s.ping < TWO64 - 1
    && match e
       case Tick => Beat(s) == Stays(s')
       case Pong => s.pong < s.ping && s' == s.(pong := s.pong + 1)
  }

  ghost predicate IsRun(run: seq<Status>, events: seq<Event>) {
    && |run| == |events| + 1 && run[0] == Status(0, 0, false, false)
    && forall i :: 0 <= i < |events| ==> Next(run[i], events[i], run[i + 1])
  }

  lemma {:induction false} CountersStayBalanced(run: seq<Status>, events: seq<Event>, i: nat)
    requires IsRun(run, events) && i < |run|
    ensures Balanced(run[i])
  {
    if i > 0 {
      var k := i - 1;
      CountersStayBalanced(run, events, k);
      assert Next(run[k], events[k], run[k + 1]);
    }
  }

  /** The heartbeats of a client that stopped answering. */
  function Beats(s: Status, n: nat): Outcome {
    if n == 0 then Stays(s)
    else
      match Beats(s, n - 1)
      case Removed => Removed
      case Stays(t) => Beat(t)
  }

  lemma {:induction false} SilentIsPinged(s: Status, n: nat)
    requires Balanced(s) && !s.closed && !s.timedOut && s.ping < TWO64 - PING_PONG_DIFF - 1
    requires n <= s.pong + PING_PONG_DIFF - s.ping
    ensures Beats(s, n) == Stays(s.(ping := s.ping + n))
  {
    if n > 0 {
      SilentIsPinged(s, n - 1);
      PingIsCounted(s.(ping := s.ping + (n - 1)));
    }
  }

  lemma PingIsCounted(s: Status)
    requires s.pong <= s.ping < s.pong + PING_PONG_DIFF && !s.closed && !s.timedOut && s.ping < TWO64 - 1
    ensures Beat(s) == Stays(s.(ping := s.ping + 1))
  {
    assert Unanswered(s) == s.ping - s.pong;
  }

  /** A client that stops answering is pinged until six pings are open, at most six more times;
      the next heartbeat closes the session, and the one after that removes it. */
  lemma SilentIsClosedThenRemoved(s: Status)
    requires Balanced(s) && !s.closed && !s.timedOut && s.ping < TWO64 - PING_PONG_DIFF - 1
    ensures var n := s.pong + PING_PONG_DIFF - s.ping;
            && n <= PING_PONG_DIFF
            && (forall k :: 0 <= k <= n ==> Beats(s, k) == Stays(s.(ping := s.ping + k)))
            && Beats(s, n + 1) == Stays(s.(ping := s.ping + n, closed := true))
            && Beats(s, n + 2) == Removed
  {
    var n := s.pong + PING_PONG_DIFF - s.ping;
    forall k | 0 <= k <= n
      ensures Beats(s, k) == Stays(s.(ping := s.ping + k))
    {
      SilentIsPinged(s, k);
    }
    assert Unanswered(s.(ping := s.ping + n)) == PING_PONG_DIFF;
  }
}
