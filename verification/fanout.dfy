/**
 * `broadcast`: one event to every session of the board. Named sessions are sent the event;
 * a failed send drops the session and marks it quit; unnamed sessions get the event queued.
 * After the pass, one `{quit: name}` notice is broadcast per dropped session.
 */
module Fanout {
  import opened Defaults
  import opened BoardState

  /** The outcome of the filter pass over the session list. */
  datatype PassResult = PassResult(kept: seq<Session>, quitters: seq<Session>, sends: seq<Effect>)

  /** The new session list, the sessions dropped (marked quit), and the sends, in order. */
  datatype Result = Result(sessions: seq<Session>, dropped: seq<Session>, effects: seq<Effect>)

  /** A send to `s` is attempted and throws. */
  predicate Fails(s: Session, broken: set<SocketId>) {
    Named(s) && s.socket in broken
  }

  /** The `sessions.filter(...)` pass of broadcast, one session at a time in list order. */
  function SendPass(ss: seq<Session>, ev: Outbound, broken: set<SocketId>): (r: PassResult)
    ensures |r.kept| + |r.quitters| == |ss|
  {
    if ss == [] then PassResult([], [], [])
    else
      var s := ss[0];
      var rest := SendPass(ss[1..], ev, broken);
      if Named(s) then
        if s.socket in broken then PassResult(rest.kept, [s.(quit := true)] + rest.quitters, rest.sends)
        else PassResult([s] + rest.kept, rest.quitters, [Sent(s.socket, ev)] + rest.sends)
      else PassResult([s.(blockedMessages := s.blockedMessages + [ev])] + rest.kept, rest.quitters, rest.sends)
  }

  /** `broadcast(event)` over the session list `ss`. */
  function Broadcast(ss: seq<Session>, ev: Outbound, broken: set<SocketId>): (r: Result)
    ensures |r.sessions| <= |ss|
    decreases |ss|, 1
  {
    var p := SendPass(ss, ev, broken);
    var n := NotifyQuitters(p.kept, p.quitters, broken, |ss|);
    Result(n.sessions, p.quitters + n.dropped, p.sends + n.effects)
  }

  /** `quitters.forEach(q => if (q.name) broadcast({quit: q.name}))`, each over the list as it then is. */
  function NotifyQuitters(ss: seq<Session>, qs: seq<Session>, broken: set<SocketId>, bound: nat): (r: Result)
    requires |ss| < bound || qs == []
    ensures |r.sessions| <= |ss|
    decreases bound, 0, |qs|
  {
    if qs == [] then Result(ss, [], [])
    else if Named(qs[0]) then
      var b := Broadcast(ss, Quit(qs[0].name.value, None), broken);
      var rest := NotifyQuitters(b.sessions, qs[1..], broken, bound);
      Result(rest.sessions, b.dropped + rest.dropped, b.effects + rest.effects)
    else NotifyQuitters(ss, qs[1..], broken, bound)
  }

  // ---------------------------------------------------------------------------------------
  // Reference description of a broadcast's outcome, independent of its two-phase recursion.

  /** A surviving session after the events `evs`: a named one is unchanged, an unnamed one queues them. */
  function Enqueued(s: Session, evs: seq<Outbound>): Session {
    if Named(s) then s else s.(blockedMessages := s.blockedMessages + evs)
  }

  /** The sessions that survive, in their original order, each unnamed one with `evs` queued. */
  function Deliver(ss: seq<Session>, evs: seq<Outbound>, broken: set<SocketId>): (r: seq<Session>)
    ensures |r| <= |ss|
  {
    if ss == [] then []
    else if Fails(ss[0], broken) then Deliver(ss[1..], evs, broken)
    else [Enqueued(ss[0], evs)] + Deliver(ss[1..], evs, broken)
  }

  /** The sessions whose send fails, in list order, marked quit. */
  function DroppedBy(ss: seq<Session>, broken: set<SocketId>): seq<Session> {
    if ss == [] then []
    else if Fails(ss[0], broken) then [ss[0].(quit := true)] + DroppedBy(ss[1..], broken)
    else DroppedBy(ss[1..], broken)
  }

  /** One successful send of `ev` per named session whose send does not fail, in list order. */
  function SendsOf(ss: seq<Session>, ev: Outbound, broken: set<SocketId>): seq<Effect> {
    if ss == [] then []
    else if Named(ss[0]) && !Fails(ss[0], broken) then [Sent(ss[0].socket, ev)] + SendsOf(ss[1..], ev, broken)
    else SendsOf(ss[1..], ev, broken)
  }

  /** `SendsOf` for each event of `evs` in turn. */
  function SendsAll(ss: seq<Session>, evs: seq<Outbound>, broken: set<SocketId>): seq<Effect> {
    if evs == [] then [] else SendsOf(ss, evs[0], broken) + SendsAll(ss, evs[1..], broken)
  }

  /** The `{quit: name}` notices for the named sessions of `ds`. */
  function QuitNotices(ds: seq<Session>): seq<Outbound> {
    if ds == [] then []
    else if Named(ds[0]) then [Quit(ds[0].name.value, None)] + QuitNotices(ds[1..])
    else QuitNotices(ds[1..])
  }

  /** No session of `ss` would fail a send. */
  predicate Healthy(ss: seq<Session>, broken: set<SocketId>) {
    forall i :: 0 <= i < |ss| ==> !Fails(ss[i], broken)
  }

  lemma {:induction false} PassIsReference(ss: seq<Session>, ev: Outbound, broken: set<SocketId>)
    ensures SendPass(ss, ev, broken) ==
            PassResult(Deliver(ss, [ev], broken), DroppedBy(ss, broken), SendsOf(ss, ev, broken))
  {
    if ss != [] {
      PassIsReference(ss[1..], ev, broken);
    }
  }

  lemma {:induction false} DeliverTwice(ss: seq<Session>, a: seq<Outbound>, c: seq<Outbound>, broken: set<SocketId>)
    ensures Deliver(Deliver(ss, a, broken), c, broken) == Deliver(ss, a + c, broken)
  {
    if ss != [] {
      DeliverTwice(ss[1..], a, c, broken);
      var s := ss[0];
      if !Fails(s, broken) && !Named(s) {
        assert Enqueued(Enqueued(s, a), c) == Enqueued(s, a + c);
      }
    }
  }

  lemma {:induction false} DeliveredIsHealthy(ss: seq<Session>, a: seq<Outbound>, broken: set<SocketId>)
    ensures Healthy(Deliver(ss, a, broken), broken)
  {
    if ss != [] {
      DeliveredIsHealthy(ss[1..], a, broken);
    }
  }

  lemma {:induction false} HealthyDeliverNothing(ss: seq<Session>, broken: set<SocketId>)
    requires Healthy(ss, broken)
    ensures Deliver(ss, [], broken) == ss
    ensures DroppedBy(ss, broken) == []
  {
    if ss != [] {
      assert !Fails(ss[0], broken);
      HealthyDeliverNothing(ss[1..], broken);
      assert Enqueued(ss[0], []) == ss[0];
      assert ss == [ss[0]] + ss[1..];
    }
  }

  lemma {:induction false} SendsOfDelivered(ss: seq<Session>, a: seq<Outbound>, ev: Outbound, broken: set<SocketId>)
    ensures SendsOf(Deliver(ss, a, broken), ev, broken) == SendsOf(ss, ev, broken)
  {
    if ss != [] {
      SendsOfDelivered(ss[1..], a, ev, broken);
    }
  }

  lemma {:induction false} SendsAllDelivered(ss: seq<Session>, a: seq<Outbound>, evs: seq<Outbound>, broken: set<SocketId>)
    ensures SendsAll(Deliver(ss, a, broken), evs, broken) == SendsAll(ss, evs, broken)
    decreases |evs|
  {
    if evs != [] {
      SendsOfDelivered(ss, a, evs[0], broken);
      SendsAllDelivered(ss, a, evs[1..], broken);
    }
  }

  lemma {:induction false} SendsAllAppend(ss: seq<Session>, a: seq<Outbound>, c: seq<Outbound>, broken: set<SocketId>)
    ensures SendsAll(ss, a + c, broken) == SendsAll(ss, a, broken) + SendsAll(ss, c, broken)
    decreases |a|
  {
    if a != [] {
      var h := SendsOf(ss, a[0], broken);
      assert (a + c)[0] == a[0] && (a + c)[1..] == a[1..] + c;
      assert SendsAll(ss, a + c, broken) == h + SendsAll(ss, a[1..] + c, broken);
      SendsAllAppend(ss, a[1..], c, broken);
      assert SendsAll(ss, a, broken) == h + SendsAll(ss, a[1..], broken);
    } else {
      assert a + c == c;
    }
  }

  /**
   * The outcome of `broadcast(ev)`: the survivors in order with the event and then one quit
   * notice per dropped session queued on each unnamed one; exactly the failing sessions dropped;
   * the event and then each quit notice sent to every named survivor.
   */
  lemma {:induction false} BroadcastIsReference(ss: seq<Session>, ev: Outbound, broken: set<SocketId>)
    ensures var d := DroppedBy(ss, broken);
            var evs := [ev] + QuitNotices(d);
            Broadcast(ss, ev, broken) == Result(Deliver(ss, evs, broken), d, SendsAll(ss, evs, broken))
    decreases |ss|, 1
  {
    var d := DroppedBy(ss, broken);
    PassIsReference(ss, ev, broken);
    var kept := Deliver(ss, [ev], broken);
    DeliveredIsHealthy(ss, [ev], broken);
    assert |kept| < |ss| || d == [] by {
      assert |SendPass(ss, ev, broken).kept| + |SendPass(ss, ev, broken).quitters| == |ss|;
    }
    NotifyIsReference(kept, d, broken, |ss|);
    DeliverTwice(ss, [ev], QuitNotices(d), broken);
    SendsAllDelivered(ss, [ev], QuitNotices(d), broken);
    SendsAllAppend(ss, [ev], QuitNotices(d), broken);
    assert SendsAll(ss, [ev], broken) == SendsOf(ss, ev, broken);
  }

  lemma {:induction false} NotifyIsReference(ss: seq<Session>, qs: seq<Session>, broken: set<SocketId>, bound: nat)
    requires Healthy(ss, broken)
    requires |ss| < bound || qs == []
    ensures NotifyQuitters(ss, qs, broken, bound) ==
            Result(Deliver(ss, QuitNotices(qs), broken), [], SendsAll(ss, QuitNotices(qs), broken))
    decreases bound, 0, |qs|
  {
    if qs == [] {
      HealthyDeliverNothing(ss, broken);
    } else if Named(qs[0]) {
      var q := Quit(qs[0].name.value, None);
      HealthyDeliverNothing(ss, broken);
      BroadcastIsReference(ss, q, broken);
      assert [q] + QuitNotices(DroppedBy(ss, broken)) == [q];
      var b := Broadcast(ss, q, broken);
      assert b == Result(Deliver(ss, [q], broken), [], SendsAll(ss, [q], broken));
      var next := Deliver(ss, [q], broken);
      DeliveredIsHealthy(ss, [q], broken);
      NotifyIsReference(next, qs[1..], broken, bound);
      DeliverTwice(ss, [q], QuitNotices(qs[1..]), broken);
      SendsAllDelivered(ss, [q], QuitNotices(qs[1..]), broken);
      SendsAllAppend(ss, [q], QuitNotices(qs[1..]), broken);
      assert QuitNotices(qs) == [q] + QuitNotices(qs[1..]);
    } else {
      NotifyIsReference(ss, qs[1..], broken, bound);
    }
  }

  // ---------------------------------------------------------------------------------------
  // Properties of the reference description.

  lemma {:induction false} SendsOfTargets(ss: seq<Session>, ev: Outbound, broken: set<SocketId>)
    ensures forall e :: e in SendsOf(ss, ev, broken) ==>
              e.Sent? && e.frame == ev &&
              exists i :: 0 <= i < |ss| && ss[i].socket == e.to && Named(ss[i]) && ss[i].socket !in broken
  {
    if ss != [] {
      SendsOfTargets(ss[1..], ev, broken);
      forall e | e in SendsOf(ss, ev, broken)
        ensures exists i :: 0 <= i < |ss| && ss[i].socket == e.to && Named(ss[i]) && ss[i].socket !in broken
      {
        if e !in SendsOf(ss[1..], ev, broken) {
          assert ss[0].socket == e.to;
        } else {
          var i :| 0 <= i < |ss[1..]| && ss[1..][i].socket == e.to && Named(ss[1..][i]) && ss[1..][i].socket !in broken;
          assert ss[i + 1] == ss[1..][i];
        }
      }
    }
  }

  lemma {:induction false} SendsAllTargets(ss: seq<Session>, evs: seq<Outbound>, broken: set<SocketId>)
    ensures forall e :: e in SendsAll(ss, evs, broken) ==>
              e.Sent? && e.frame in evs &&
              exists i :: 0 <= i < |ss| && ss[i].socket == e.to && Named(ss[i]) && ss[i].socket !in broken
    decreases |evs|
  {
    if evs != [] {
      SendsOfTargets(ss, evs[0], broken);
      SendsAllTargets(ss, evs[1..], broken);
    }
  }

  lemma {:induction false} DroppedByExactly(ss: seq<Session>, broken: set<SocketId>)
    ensures forall i :: 0 <= i < |ss| && Fails(ss[i], broken) ==> ss[i].(quit := true) in DroppedBy(ss, broken)
    ensures forall d :: d in DroppedBy(ss, broken) ==>
              d.quit && Fails(d, broken) && exists i :: 0 <= i < |ss| && ss[i].(quit := true) == d
  {
    if ss != [] {
      DroppedByExactly(ss[1..], broken);
      forall i | 0 <= i < |ss| && Fails(ss[i], broken)
        ensures ss[i].(quit := true) in DroppedBy(ss, broken)
      {
        if i > 0 {
          assert ss[i] == ss[1..][i - 1];
        }
      }
      forall d | d in DroppedBy(ss, broken)
        ensures exists i :: 0 <= i < |ss| && ss[i].(quit := true) == d
      {
        if d !in DroppedBy(ss[1..], broken) {
          assert ss[0].(quit := true) == d;
        } else {
          var i :| 0 <= i < |ss[1..]| && ss[1..][i].(quit := true) == d;
          assert ss[i + 1] == ss[1..][i];
        }
      }
    }
  }

  lemma {:induction false} QuitNoticesOfFailures(ds: seq<Session>, broken: set<SocketId>)
    requires forall k :: 0 <= k < |ds| ==> Fails(ds[k], broken)
    ensures |QuitNotices(ds)| == |ds|
    ensures forall k :: 0 <= k < |ds| ==>
              QuitNotices(ds)[k].Quit? && Some(QuitNotices(ds)[k].name) == ds[k].name && QuitNotices(ds)[k].snapshot.None?
  {
    if ds != [] {
      assert Fails(ds[0], broken);
      QuitNoticesOfFailures(ds[1..], broken);
    }
  }

  lemma {:induction false} DeliverMembers(ss: seq<Session>, evs: seq<Outbound>, broken: set<SocketId>)
    ensures forall i :: 0 <= i < |ss| && !Fails(ss[i], broken) ==> Enqueued(ss[i], evs) in Deliver(ss, evs, broken)
    ensures forall s :: s in Deliver(ss, evs, broken) ==>
              exists i :: 0 <= i < |ss| && !Fails(ss[i], broken) && s == Enqueued(ss[i], evs)
  {
    if ss != [] {
      DeliverMembers(ss[1..], evs, broken);
      forall i | 0 <= i < |ss| && !Fails(ss[i], broken)
        ensures Enqueued(ss[i], evs) in Deliver(ss, evs, broken)
      {
        if i > 0 {
          assert ss[i] == ss[1..][i - 1];
        }
      }
      forall s | s in Deliver(ss, evs, broken)
        ensures exists i :: 0 <= i < |ss| && !Fails(ss[i], broken) && s == Enqueued(ss[i], evs)
      {
        if s !in Deliver(ss[1..], evs, broken) {
          assert s == Enqueued(ss[0], evs);
        } else {
          var i :| 0 <= i < |ss[1..]| && !Fails(ss[1..][i], broken) && s == Enqueued(ss[1..][i], evs);
          assert ss[i + 1] == ss[1..][i];
        }
      }
    }
  }

  /** The sockets of `ss`, in order. */
  function Sockets(ss: seq<Session>): seq<SocketId> {
    if ss == [] then [] else [ss[0].socket] + Sockets(ss[1..])
  }

  /** The sockets of the sessions whose send would not fail, in order. */
  function SurvivorSockets(ss: seq<Session>, broken: set<SocketId>): seq<SocketId> {
    if ss == [] then []
    else if Fails(ss[0], broken) then SurvivorSockets(ss[1..], broken)
    else [ss[0].socket] + SurvivorSockets(ss[1..], broken)
  }

  lemma {:induction false} DeliverKeepsOrder(ss: seq<Session>, evs: seq<Outbound>, broken: set<SocketId>)
    ensures Sockets(Deliver(ss, evs, broken)) == SurvivorSockets(ss, broken)
  {
    if ss != [] {
      DeliverKeepsOrder(ss[1..], evs, broken);
    }
  }

  lemma {:induction false} DeliverKeepsDistinct(ss: seq<Session>, evs: seq<Outbound>, broken: set<SocketId>)
    requires DistinctSockets(ss)
    ensures DistinctSockets(Deliver(ss, evs, broken))
  {
    if ss != [] {
      DeliverKeepsDistinct(ss[1..], evs, broken);
      DeliverMembers(ss[1..], evs, broken);
      var r := Deliver(ss, evs, broken);
      if !Fails(ss[0], broken) {
        forall j | 1 <= j < |r|
          ensures r[0].socket != r[j].socket
        {
          assert r[j] in Deliver(ss[1..], evs, broken);
          var i :| 0 <= i < |ss[1..]| && !Fails(ss[1..][i], broken) && r[j] == Enqueued(ss[1..][i], evs);
          assert ss[1..][i] == ss[i + 1];
        }
      }
    }
  }

  /**
   * Broadcast never sends to a session without a name: every effect is a send, to a named
   * session of the list whose send succeeded, of the event or of a quit notice.
   */
  lemma BroadcastSendsOnlyToNamed(ss: seq<Session>, ev: Outbound, broken: set<SocketId>)
    ensures forall e :: e in Broadcast(ss, ev, broken).effects ==>
              && e.Sent?
              && (e.frame == ev || e.frame.Quit?)
              && exists i :: 0 <= i < |ss| && ss[i].socket == e.to && Named(ss[i]) && ss[i].socket !in broken
  {
    BroadcastIsReference(ss, ev, broken);
    var d := DroppedBy(ss, broken);
    var evs := [ev] + QuitNotices(d);
    SendsAllTargets(ss, evs, broken);
    DroppedByExactly(ss, broken);
    QuitNoticesOfFailures(d, broken);
    assert forall x :: x in evs ==> x == ev || x.Quit?;
  }

  /** Broadcast sends the event itself, or a quit notice without a snapshot for a dropped session. */
  lemma BroadcastFrames(ss: seq<Session>, ev: Outbound, broken: set<SocketId>)
    ensures forall e :: e in Broadcast(ss, ev, broken).effects ==>
              e.Sent? && (e.frame == ev || (e.frame.Quit? && e.frame.snapshot.None?))
  {
    BroadcastIsReference(ss, ev, broken);
    var d := DroppedBy(ss, broken);
    var notices := QuitNotices(d);
    SendsAllTargets(ss, [ev] + notices, broken);
    DroppedByExactly(ss, broken);
    assert forall k :: 0 <= k < |d| ==> d[k] in d;
    QuitNoticesOfFailures(d, broken);
    forall x | x in notices
      ensures x.Quit? && x.snapshot.None?
    {
      var k :| 0 <= k < |notices| && notices[k] == x;
    }
  }

  /** Every named session whose send succeeds is sent the event by the pass. */
  lemma {:induction false} SendsOfReaches(ss: seq<Session>, ev: Outbound, broken: set<SocketId>)
    ensures forall i :: 0 <= i < |ss| && Named(ss[i]) && ss[i].socket !in broken ==>
              Sent(ss[i].socket, ev) in SendsOf(ss, ev, broken)
  {
    if ss != [] {
      SendsOfReaches(ss[1..], ev, broken);
      forall i | 0 <= i < |ss| && Named(ss[i]) && ss[i].socket !in broken
        ensures Sent(ss[i].socket, ev) in SendsOf(ss, ev, broken)
      {
        if i > 0 {
          assert ss[i] == ss[1..][i - 1];
        }
      }
    }
  }

  /** Broadcast sends the event to every named session whose send succeeds. */
  lemma BroadcastReachesNamed(ss: seq<Session>, ev: Outbound, broken: set<SocketId>)
    ensures forall i :: 0 <= i < |ss| && Named(ss[i]) && ss[i].socket !in broken ==>
              Sent(ss[i].socket, ev) in Broadcast(ss, ev, broken).effects
  {
    var evs := [ev] + QuitNotices(DroppedBy(ss, broken));
    BroadcastIsReference(ss, ev, broken);
    assert evs[0] == ev && evs[1..] == QuitNotices(DroppedBy(ss, broken));
    assert SendsAll(ss, evs, broken) == SendsOf(ss, ev, broken) + SendsAll(ss, evs[1..], broken);
    SendsOfReaches(ss, ev, broken);
  }

  /**
   * Broadcast queues instead of sending for every unnamed session: it stays in the list with the
   * event, then the quit notices, appended to its queue. Named survivors stay as they were.
   */
  lemma BroadcastQueuesForUnnamed(ss: seq<Session>, ev: Outbound, broken: set<SocketId>)
    ensures var r := Broadcast(ss, ev, broken);
            var notices := QuitNotices(r.dropped);
            && (forall i :: 0 <= i < |ss| && !Named(ss[i]) ==>
                  ss[i].(blockedMessages := ss[i].blockedMessages + [ev] + notices) in r.sessions)
            && (forall i :: 0 <= i < |ss| && Named(ss[i]) && ss[i].socket !in broken ==> ss[i] in r.sessions)
  {
    var d := DroppedBy(ss, broken);
    var evs := [ev] + QuitNotices(d);
    BroadcastIsReference(ss, ev, broken);
    DeliverMembers(ss, evs, broken);
    forall i | 0 <= i < |ss| && !Named(ss[i])
      ensures ss[i].(blockedMessages := ss[i].blockedMessages + [ev] + QuitNotices(d)) in Deliver(ss, evs, broken)
    {
      assert Enqueued(ss[i], evs) == ss[i].(blockedMessages := ss[i].blockedMessages + [ev] + QuitNotices(d));
    }
  }

  /**
   * Broadcast drops exactly the named sessions whose send fails, marks them quit, keeps the rest
   * in their original relative order, and broadcasts one `{quit: name}` per dropped session
   * after the event itself.
   */
  lemma BroadcastDropsExactlyFailures(ss: seq<Session>, ev: Outbound, broken: set<SocketId>)
    ensures var r := Broadcast(ss, ev, broken);
            && (forall i :: 0 <= i < |ss| && Named(ss[i]) && ss[i].socket in broken ==> ss[i].(quit := true) in r.dropped)
            && (forall d :: d in r.dropped ==>
                  d.quit && Named(d) && d.socket in broken && exists i :: 0 <= i < |ss| && ss[i].(quit := true) == d)
            && Sockets(r.sessions) == SurvivorSockets(ss, broken)
            && |QuitNotices(r.dropped)| == |r.dropped|
            && (forall k :: 0 <= k < |r.dropped| ==>
                  QuitNotices(r.dropped)[k].Quit? && Some(QuitNotices(r.dropped)[k].name) == r.dropped[k].name
                  && QuitNotices(r.dropped)[k].snapshot.None?)
            && r.effects == SendsOf(ss, ev, broken) + SendsAll(ss, QuitNotices(r.dropped), broken)
  {
    var d := DroppedBy(ss, broken);
    var evs := [ev] + QuitNotices(d);
    BroadcastIsReference(ss, ev, broken);
    DroppedByExactly(ss, broken);
    QuitNoticesOfFailures(d, broken);
    DeliverKeepsOrder(ss, evs, broken);
    SendsAllAppend(ss, [ev], QuitNotices(d), broken);
    assert SendsAll(ss, [ev], broken) == SendsOf(ss, ev, broken);
  }

  /** A broadcast over a list in which no send fails drops nothing and keeps every session. */
  lemma BroadcastHealthy(ss: seq<Session>, ev: Outbound, broken: set<SocketId>)
    requires Healthy(ss, broken)
    ensures var r := Broadcast(ss, ev, broken);
            && r.dropped == []
            && r.sessions == Deliver(ss, [ev], broken)
            && Sockets(r.sessions) == Sockets(ss)
            && r.effects == SendsOf(ss, ev, broken)
  {
    BroadcastIsReference(ss, ev, broken);
    HealthyDeliverNothing(ss, broken);
    assert [ev] + QuitNotices([]) == [ev];
    DeliverKeepsOrder(ss, [ev], broken);
    HealthySockets(ss, broken);
    assert SendsAll(ss, [ev], broken) == SendsOf(ss, ev, broken);
  }

  lemma {:induction false} HealthySockets(ss: seq<Session>, broken: set<SocketId>)
    requires Healthy(ss, broken)
    ensures SurvivorSockets(ss, broken) == Sockets(ss)
  {
    if ss != [] {
      HealthySockets(ss[1..], broken);
    }
  }

  // ---------------------------------------------------------------------------------------
  // Broadcast on the whole board.

  /** Keep the dropped sessions' objects: their handlers still run and see `quit`. */
  function Retire(m: map<SocketId, Session>, ds: seq<Session>): (r: map<SocketId, Session>)
    ensures forall k :: k in r <==> k in m || exists j :: 0 <= j < |ds| && ds[j].socket == k
    ensures forall k :: k in r ==>
              (k in m && r[k] == m[k]) || exists j :: 0 <= j < |ds| && ds[j] == r[k] && ds[j].socket == k
    decreases |ds|
  {
    if ds == [] then m
    else
      var r := Retire(m[ds[0].socket := ds[0]], ds[1..]);
      assert forall j :: 0 <= j < |ds[1..]| ==> ds[1..][j] == ds[j + 1];
      r
  }

  /** `this.broadcast(event)`: the board with the new session list and the dropped sessions retired. */
  function BroadcastBoard(b: Board, ev: Outbound, broken: set<SocketId>): (r: Step)
    ensures r.board.lastTimestamp == b.lastTimestamp && r.board.messages == b.messages
    ensures r.board.tasks == b.tasks && r.board.presence == b.presence && r.board.nextSocket == b.nextSocket
    ensures r.effects == Broadcast(b.sessions, ev, broken).effects
  {
    var res := Broadcast(b.sessions, ev, broken);
    Step(b.(sessions := res.sessions, retired := Retire(b.retired, res.dropped)), res.effects)
  }

  /** A survivor of a pass is one of the list's sessions whose send does not fail, with the same flags. */
  lemma SurvivorFacts(ss: seq<Session>, evs: seq<Outbound>, broken: set<SocketId>)
    ensures forall s :: s in Deliver(ss, evs, broken) ==>
              exists x :: 0 <= x < |ss| && !Fails(ss[x], broken) && s.socket == ss[x].socket && s.quit == ss[x].quit
  {
    DeliverMembers(ss, evs, broken);
  }

  /** With distinct sockets, no survivor shares a socket with a dropped session. */
  lemma SurvivorNotDropped(ss: seq<Session>, evs: seq<Outbound>, broken: set<SocketId>)
    requires DistinctSockets(ss)
    ensures forall s, j :: s in Deliver(ss, evs, broken) && 0 <= j < |DroppedBy(ss, broken)| ==>
              s.socket != DroppedBy(ss, broken)[j].socket
  {
    SurvivorFacts(ss, evs, broken);
    DroppedByExactly(ss, broken);
    var d := DroppedBy(ss, broken);
    forall s, j | s in Deliver(ss, evs, broken) && 0 <= j < |d|
      ensures s.socket != d[j].socket
    {
      var x :| 0 <= x < |ss| && !Fails(ss[x], broken) && s.socket == ss[x].socket && s.quit == ss[x].quit;
      assert d[j] in d;
      var y :| 0 <= y < |ss| && ss[y].(quit := true) == d[j];
      assert Fails(ss[y], broken);
    }
  }

  /** The pass keeps the session bookkeeping consistent: survivors live, dropped sessions retired. */
  lemma PassKeepsSessionsOk(ss: seq<Session>, retired: map<SocketId, Session>, next: nat,
                            evs: seq<Outbound>, broken: set<SocketId>)
    requires SessionsOk(ss, retired, next)
    ensures SessionsOk(Deliver(ss, evs, broken), Retire(retired, DroppedBy(ss, broken)), next)
  {
    var d := DroppedBy(ss, broken);
    var live := Deliver(ss, evs, broken);
    var gone := Retire(retired, d);
    DroppedByExactly(ss, broken);
    SurvivorFacts(ss, evs, broken);
    SurvivorNotDropped(ss, evs, broken);
    DeliverKeepsDistinct(ss, evs, broken);
    forall i | 0 <= i < |live|
      ensures live[i].socket !in gone && !live[i].quit && live[i].socket < next
    {
      assert live[i] in live;
    }
    forall k | k in gone
      ensures gone[k].socket == k && gone[k].quit && k < next
    {
      if !(k in retired && gone[k] == retired[k]) {
        var j :| 0 <= j < |d| && d[j] == gone[k] && d[j].socket == k;
        assert d[j] in d;
      }
    }
  }

  /** A broadcast keeps the board well formed. */
  lemma BroadcastKeepsWellFormed(b: Board, ev: Outbound, broken: set<SocketId>)
    requires WellFormed(b)
    ensures WellFormed(BroadcastBoard(b, ev, broken).board)
  {
    var d := DroppedBy(b.sessions, broken);
    BroadcastIsReference(b.sessions, ev, broken);
    PassKeepsSessionsOk(b.sessions, b.retired, b.nextSocket, [ev] + QuitNotices(d), broken);
  }

  // ---------------------------------------------------------------------------------------
  // Finding a session again after a broadcast.

  lemma {:induction false} IndexOfMember(ss: seq<Session>, i: nat)
    requires DistinctSockets(ss) && i < |ss|
    ensures IndexOf(ss, ss[i].socket) == Some(i)
  {
    if i > 0 {
      assert forall k :: 0 <= k < |ss[1..]| ==> ss[1..][k] == ss[k + 1];
      IndexOfMember(ss[1..], i - 1);
    }
  }

  lemma {:induction false} DroppedByDistinct(ss: seq<Session>, broken: set<SocketId>)
    requires DistinctSockets(ss)
    ensures DistinctSockets(DroppedBy(ss, broken))
  {
    if ss != [] {
      DroppedByDistinct(ss[1..], broken);
      DroppedByExactly(ss[1..], broken);
      var d := DroppedBy(ss, broken);
      if Fails(ss[0], broken) {
        forall j | 1 <= j < |d|
          ensures d[0].socket != d[j].socket
        {
          assert d[j] in DroppedBy(ss[1..], broken);
          var y :| 0 <= y < |ss[1..]| && ss[1..][y].(quit := true) == d[j];
          assert ss[1..][y] == ss[y + 1];
        }
      }
    }
  }

  lemma {:induction false} RetireFinds(m: map<SocketId, Session>, ds: seq<Session>, j: nat)
    requires DistinctSockets(ds) && j < |ds|
    ensures Retire(m, ds)[ds[j].socket] == ds[j]
    decreases |ds|
  {
    var m' := m[ds[0].socket := ds[0]];
    assert forall k :: 0 <= k < |ds[1..]| ==> ds[1..][k] == ds[k + 1];
    if j == 0 {
      assert forall k :: 0 <= k < |ds[1..]| ==> ds[1..][k].socket != ds[0].socket;
    } else {
      RetireFinds(m', ds[1..], j - 1);
    }
  }

  /** A live session whose send succeeds is found unchanged after the pass. */
  lemma PassKeepsSurvivor(ss: seq<Session>, retired: map<SocketId, Session>, next: nat,
                          evs: seq<Outbound>, broken: set<SocketId>, i: nat)
    requires SessionsOk(ss, retired, next) && i < |ss| && Named(ss[i]) && ss[i].socket !in broken
    ensures Find(Deliver(ss, evs, broken), Retire(retired, DroppedBy(ss, broken)), ss[i].socket) == Some(ss[i])
  {
    var live := Deliver(ss, evs, broken);
    DeliverMembers(ss, evs, broken);
    DeliverKeepsDistinct(ss, evs, broken);
    assert Enqueued(ss[i], evs) == ss[i];
    assert ss[i] in live;
    var k :| 0 <= k < |live| && live[k] == ss[i];
    IndexOfMember(live, k);
  }

  /** A live session whose send fails is found marked quit among the retired after the pass. */
  lemma PassRetiresFailure(ss: seq<Session>, retired: map<SocketId, Session>, next: nat,
                           evs: seq<Outbound>, broken: set<SocketId>, i: nat)
    requires SessionsOk(ss, retired, next) && i < |ss| && Named(ss[i]) && ss[i].socket in broken
    ensures Find(Deliver(ss, evs, broken), Retire(retired, DroppedBy(ss, broken)), ss[i].socket) ==
            Some(ss[i].(quit := true))
  {
    var live := Deliver(ss, evs, broken);
    var d := DroppedBy(ss, broken);
    DeliverMembers(ss, evs, broken);
    DroppedByExactly(ss, broken);
    forall k | 0 <= k < |live|
      ensures live[k].socket != ss[i].socket
    {
      assert live[k] in live;
      var y :| 0 <= y < |ss| && !Fails(ss[y], broken) && live[k] == Enqueued(ss[y], evs);
    }
    assert ss[i].(quit := true) in d;
    var j :| 0 <= j < |d| && d[j] == ss[i].(quit := true);
    DroppedByDistinct(ss, broken);
    RetireFinds(retired, d, j);
  }

  /** A session that had already left the list is found unchanged after the pass. */
  lemma PassKeepsRetired(ss: seq<Session>, retired: map<SocketId, Session>, next: nat,
                         evs: seq<Outbound>, broken: set<SocketId>, sock: SocketId)
    requires SessionsOk(ss, retired, next) && IndexOf(ss, sock).None? && sock in retired
    ensures Find(Deliver(ss, evs, broken), Retire(retired, DroppedBy(ss, broken)), sock) == Some(retired[sock])
  {
    var live := Deliver(ss, evs, broken);
    var d := DroppedBy(ss, broken);
    DeliverMembers(ss, evs, broken);
    DroppedByExactly(ss, broken);
    forall k | 0 <= k < |live|
      ensures live[k].socket != sock
    {
      assert live[k] in live;
      var y :| 0 <= y < |ss| && !Fails(ss[y], broken) && live[k] == Enqueued(ss[y], evs);
    }
    forall j | 0 <= j < |d|
      ensures d[j].socket != sock
    {
      assert d[j] in d;
      var y :| 0 <= y < |ss| && ss[y].(quit := true) == d[j];
    }
  }

  /**
   * A named session is found again after a broadcast: unchanged if its send succeeded (or it had
   * already left the list), marked quit if the broadcast dropped it.
   */
  lemma BroadcastKeepsLookup(b: Board, ev: Outbound, broken: set<SocketId>, x: Session)
    requires WellFormed(b) && Lookup(b, x.socket) == Some(x) && Named(x)
    ensures Lookup(BroadcastBoard(b, ev, broken).board, x.socket) ==
            Some(if x.socket in broken then x.(quit := true) else x)
  {
    var ss := b.sessions;
    var d := DroppedBy(ss, broken);
    var evs := [ev] + QuitNotices(d);
    BroadcastIsReference(ss, ev, broken);
    var r := BroadcastBoard(b, ev, broken).board;
    assert r.sessions == Deliver(ss, evs, broken);
    assert r.retired == Retire(b.retired, d);
    match IndexOf(ss, x.socket)
    case Some(i) =>
      if x.socket in broken {
        PassRetiresFailure(ss, b.retired, b.nextSocket, evs, broken, i);
      } else {
        PassKeepsSurvivor(ss, b.retired, b.nextSocket, evs, broken, i);
      }
    case None =>
      PassKeepsRetired(ss, b.retired, b.nextSocket, evs, broken, x.socket);
  }
}
