/**
 * What every step of the coordinator keeps: the session bookkeeping (`WellFormed`), the rule
 * that a broadcast reaches only connections that have a name, and the message timestamp
 * counter, which only a posted chat message moves, always strictly forward.
 */
module Invariants {
  import opened Defaults
  import opened Records
  import opened BoardState
  import StickyStore
  import PresenceStore
  import Fanout
  import opened Coordinator
  import StickyArea

  // ---------------------------------------------------------------------------------------
  // Finding sessions in an edited list.

  lemma {:induction false} IndexOfAppend(ss: seq<Session>, x: Session, k: SocketId)
    ensures IndexOf(ss + [x], k) ==
            if IndexOf(ss, k).Some? then IndexOf(ss, k) else if x.socket == k then Some(|ss|) else None
  {
    if ss != [] {
      assert (ss + [x])[1..] == ss[1..] + [x];
      IndexOfAppend(ss[1..], x, k);
    }
  }

  lemma {:induction false} IndexOfUpdate(ss: seq<Session>, i: nat, s: Session, k: SocketId)
    requires i < |ss| && ss[i].socket == s.socket
    ensures IndexOf(ss[i := s], k) == IndexOf(ss, k)
  {
    if i > 0 {
      assert ss[i := s][1..] == ss[1..][i - 1 := s];
      IndexOfUpdate(ss[1..], i - 1, s, k);
    }
  }

  lemma {:induction false} WithoutDistinct(ss: seq<Session>, sock: SocketId)
    requires DistinctSockets(ss)
    ensures DistinctSockets(Without(ss, sock))
  {
    if ss != [] {
      var rest := Without(ss[1..], sock);
      WithoutDistinct(ss[1..], sock);
      if ss[0].socket != sock {
        forall j | 0 <= j < |rest|
          ensures rest[j].socket != ss[0].socket
        {
          var m :| 0 <= m < |ss[1..]| && ss[1..][m] == rest[j];
          assert ss[1..][m] == ss[m + 1];
        }
        ConsDistinct(ss[0], rest);
        assert Without(ss, sock) == [ss[0]] + rest;
      }
    }
  }

  /** A session whose socket is not among a distinct list's keeps it distinct when put in front. */
  lemma ConsDistinct(x: Session, rest: seq<Session>)
    requires DistinctSockets(rest)
    requires forall j :: 0 <= j < |rest| ==> rest[j].socket != x.socket
    ensures DistinctSockets([x] + rest)
  {
    var r := [x] + rest;
    forall i, j | 0 <= i < j < |r|
      ensures r[i].socket != r[j].socket
    {
      assert r[j] == rest[j - 1];
      if i > 0 {
        assert r[i] == rest[i - 1];
      }
    }
  }

  /** Removal works piecewise, so the sessions that stay keep their relative order. */
  lemma {:induction false} WithoutAppend(a: seq<Session>, c: seq<Session>, sock: SocketId)
    ensures Without(a + c, sock) == Without(a, sock) + Without(c, sock)
  {
    if a == [] {
      assert a + c == c;
    } else {
      assert (a + c)[0] == a[0];
      assert (a + c)[1..] == a[1..] + c;
      WithoutAppend(a[1..], c, sock);
    }
  }

  /** Every other socket is found in the list without `sock` exactly as before, on the same session. */
  lemma {:induction false} IndexOfWithout(ss: seq<Session>, sock: SocketId, k: SocketId)
    requires k != sock
    ensures IndexOf(Without(ss, sock), k).Some? == IndexOf(ss, k).Some?
    ensures IndexOf(ss, k).Some? ==>
              Without(ss, sock)[IndexOf(Without(ss, sock), k).value] == ss[IndexOf(ss, k).value]
  {
    if ss != [] {
      IndexOfWithout(ss[1..], sock, k);
      var w := Without(ss[1..], sock);
      if ss[0].socket != sock && ss[0].socket != k {
        assert ([ss[0]] + w)[1..] == w;
      }
    }
  }

  /** Removing `sock` from a well-formed list and retiring its session keeps the bookkeeping. */
  lemma WithoutKeepsSessionsOk(ss: seq<Session>, retired: map<SocketId, Session>, next: nat, s: Session)
    requires SessionsOk(ss, retired, next) && s.socket < next
    ensures SessionsOk(Without(ss, s.socket), retired[s.socket := s.(quit := true)], next)
  {
    var w := Without(ss, s.socket);
    WithoutDistinct(ss, s.socket);
    forall i | 0 <= i < |w|
      ensures w[i].socket !in retired && !w[i].quit && w[i].socket < next
    {
      assert w[i] in ss;
      var m :| 0 <= m < |ss| && ss[m] == w[i];
    }
  }

  // ---------------------------------------------------------------------------------------
  // Accept, Save and the session list.

  /**
   * Accepting a connection keeps the board well formed; the new connection is found as a fresh,
   * unnamed, unidentified session and every other connection is found as before.
   */
  lemma AcceptKeepsWellFormed(b: Board)
    requires WellFormed(b)
    ensures var (b', sock) := Accept(b);
            && WellFormed(b')
            && Lookup(b', sock) == Some(Session(sock, None, [], false, false))
            && forall k :: k != sock ==> Lookup(b', k) == Lookup(b, k)
  {
    var (b', sock) := Accept(b);
    var x := Session(sock, None, [], false, false);
    forall k
      ensures IndexOf(b'.sessions, k) ==
              if IndexOf(b.sessions, k).Some? then IndexOf(b.sessions, k) else if sock == k then Some(|b.sessions|) else None
    {
      IndexOfAppend(b.sessions, x, k);
    }
  }

  /**
   * Writing back a session found on the board (with its `quit` flag unchanged) keeps the board
   * well formed, makes it the session found on its socket, and leaves every other socket alone.
   */
  lemma SaveKeepsWellFormed(b: Board, s: Session)
    requires WellFormed(b) && Lookup(b, s.socket).Some? && Lookup(b, s.socket).value.quit == s.quit
    ensures WellFormed(Save(b, s))
    ensures Lookup(Save(b, s), s.socket) == Some(s)
    ensures forall k :: k != s.socket ==> Lookup(Save(b, s), k) == Lookup(b, k)
    ensures Save(b, s).lastTimestamp == b.lastTimestamp && Save(b, s).messages == b.messages
    ensures Save(b, s).tasks == b.tasks && Save(b, s).presence == b.presence
  {
    match IndexOf(b.sessions, s.socket)
    case Some(i) =>
      var ss := b.sessions[i := s];
      forall k
        ensures IndexOf(ss, k) == IndexOf(b.sessions, k)
      {
        IndexOfUpdate(b.sessions, i, s, k);
      }
      assert forall j :: 0 <= j < |ss| && j != i ==> ss[j] == b.sessions[j];
    case None =>
  }

  // ---------------------------------------------------------------------------------------
  // Broadcast targets.

  /** Every send effect of `effects` goes to a connection whose session on `b` has a name. */
  predicate SendsToNamed(effects: seq<Effect>, b: Board) {
    forall e :: e in effects && e.Sent? ==> Lookup(b, e.to).Some? && Named(Lookup(b, e.to).value)
  }

  /** A board broadcast sends only to connections found named afterwards, and only sends. */
  lemma BroadcastTargetsNamed(b: Board, ev: Outbound, broken: set<SocketId>)
    requires WellFormed(b)
    ensures var r := Fanout.BroadcastBoard(b, ev, broken);
            && SendsToNamed(r.effects, r.board)
            && (forall e :: e in r.effects ==> e.Sent? && (e.frame == ev || e.frame.Quit?))
  {
    var r := Fanout.BroadcastBoard(b, ev, broken);
    Fanout.BroadcastSendsOnlyToNamed(b.sessions, ev, broken);
    forall e | e in r.effects && e.Sent?
      ensures Lookup(r.board, e.to).Some? && Named(Lookup(r.board, e.to).value)
    {
      var i :| 0 <= i < |b.sessions| && b.sessions[i].socket == e.to && Named(b.sessions[i]) && b.sessions[i].socket !in broken;
      Fanout.IndexOfMember(b.sessions, i);
      Fanout.BroadcastKeepsLookup(b, ev, broken, b.sessions[i]);
    }
  }

  /** Sends stay well targeted when a later step only edits fields other than the sessions. */
  lemma SendsToNamedKept(effects: seq<Effect>, b: Board, b': Board)
    requires SendsToNamed(effects, b)
    requires forall k :: Lookup(b', k) == Lookup(b, k)
    ensures SendsToNamed(effects, b')
  {
  }

  // ---------------------------------------------------------------------------------------
  // The handlers.

  /** Sends framed by effects that are not sends keep their targets. */
  lemma SendsToNamedFramed(pre: seq<Effect>, mid: seq<Effect>, post: seq<Effect>, b: Board)
    requires forall e :: e in pre + post ==> !e.Sent?
    requires SendsToNamed(mid, b)
    ensures SendsToNamed(pre + mid + post, b)
  {
    forall e | e in pre + mid + post && e.Sent?
      ensures e in mid
    {
      assert !(e in pre + post);
    }
  }

  /** The board a successful identification broadcasts on: the session saved, the presence entry added. */
  lemma JoinBoardWellFormed(b: Board, s: Session, name: string, env: Env)
    requires WellFormed(b) && Lookup(b, s.socket) == Some(s)
    ensures var b1 := Save(b, s.(name := Some(name), blockedMessages := [], receivedUserInfo := true));
            WellFormed(b1.(presence := PresenceStore.AddUser(b1.presence, JoinParams(name, env), env.iso(env.now)).store))
  {
    var s1 := s.(name := Some(name), blockedMessages := [], receivedUserInfo := true);
    SaveKeepsWellFormed(b, s1);
    var b1 := Save(b, s1);
    PresenceStore.AddKeepsKeyedByName(b1.presence, JoinParams(name, env), env.iso(env.now));
  }

  /** The `joined` broadcast keeps the board well formed and reaches only named connections. */
  lemma AnnounceKeepsWellFormed(b: Board, s: Session, name: string, env: Env)
    requires WellFormed(b) && Lookup(b, s.socket) == Some(s) && name != ""
    ensures var a := Announce(b, s, name, env);
            && WellFormed(a.board)
            && SendsToNamed(a.effects, a.board)
  {
    var b1 := Save(b, s.(name := Some(name), blockedMessages := [], receivedUserInfo := true));
    var b2 := b1.(presence := PresenceStore.AddUser(b1.presence, JoinParams(name, env), env.iso(env.now)).store);
    var ev := Joined(name, PresenceStore.LatestUsers(b2.presence).response.users);
    JoinBoardWellFormed(b, s, name, env);
    Fanout.BroadcastKeepsWellFormed(b2, ev, env.broken);
    BroadcastTargetsNamed(b2, ev, env.broken);
    assert Announce(b, s, name, env) == Fanout.BroadcastBoard(b2, ev, env.broken);
  }

  lemma RegisterKeepsWellFormed(b: Board, s: Session, name: string, env: Env)
    requires WellFormed(b) && Lookup(b, s.socket) == Some(s) && name != ""
    ensures var r := Register(b, s, name, env);
            && WellFormed(r.board)
            && SendsToNamed(r.effects, r.board)
  {
    var a := Announce(b, s, name, env);
    AnnounceKeepsWellFormed(b, s, name, env);
    var flush := Replies(s.socket, s.blockedMessages);
    var calls := [PresenceCall(PresenceStore.Add(JoinParams(name, env))), PresenceCall(PresenceStore.Latest)];
    RepliesSendNothing(s.socket, s.blockedMessages);
    var pre := flush + calls;
    assert forall e: Effect :: e in pre ==> !e.Sent? by {
      forall e: Effect | e in pre ensures !e.Sent? {
        assert e in flush || e in calls;
      }
    }
    SendsToNamedFramed(pre, a.effects, [Reply(s.socket, Ready)], a.board);
    assert Register(b, s, name, env) == Step(a.board, pre + a.effects + [Reply(s.socket, Ready)]);
  }

  /** Replying on one socket broadcasts nothing. */
  lemma {:induction false} RepliesSendNothing(sock: SocketId, frames: seq<Outbound>)
    ensures forall e :: e in Replies(sock, frames) ==> e.Reply? && e.to == sock
    decreases |frames|
  {
    if frames != [] {
      RepliesSendNothing(sock, frames[1..]);
      assert Replies(sock, frames) == [Reply(sock, frames[0])] + Replies(sock, frames[1..]);
    }
  }

  lemma IdentifyKeepsWellFormed(b: Board, s: Session, frame: Frame, env: Env)
    requires WellFormed(b) && Lookup(b, s.socket) == Some(s) && !s.quit
    ensures var r := Identify(b, s, frame, env);
            && WellFormed(r.board)
            && SendsToNamed(r.effects, r.board)
  {
    if !frame.NullValue? && !frame.Unparsable? {
      var name := IdentityName(frame);
      if |name| > MaxNameLength {
        SaveKeepsWellFormed(b, s.(name := Some(name)));
      } else {
        assert name != "" by {
          if frame.Object? && Given(frame.name) {
          } else {
            assert name == Anonymous;
          }
        }
        RegisterKeepsWellFormed(b, s, name, env);
      }
    }
  }

  lemma PostMessageKeepsWellFormed(b: Board, s: Session, text: string, env: Env)
    requires WellFormed(b)
    ensures var r := PostMessage(b, s, text, env);
            && WellFormed(r.board)
            && SendsToNamed(r.effects, r.board)
  {
    if |text| <= MaxMessageLength {
      var ts := Max(env.now, b.lastTimestamp + 1);
      var msg := Message(env.iso(ts), text, OrText(s.name, Anonymous), ts);
      var b1 := b.(lastTimestamp := ts);
      Fanout.BroadcastKeepsWellFormed(b1, ChatMessage(msg), env.broken);
      BroadcastTargetsNamed(b1, ChatMessage(msg), env.broken);
      var bc := Fanout.BroadcastBoard(b1, ChatMessage(msg), env.broken);
      var b2 := bc.board.(messages := bc.board.messages[msg.id := msg]);
      SendsToNamedKept(bc.effects, bc.board, b2);
      assert PostMessage(b, s, text, env) == Step(b2, bc.effects + [Persist(msg)]);
    }
  }

  lemma AssignTaskKeepsWellFormed(b: Board, s: Session, t: TaskValue, env: Env)
    requires WellFormed(b)
    ensures var r := AssignTask(b, s, t, env);
            && WellFormed(r.board)
            && SendsToNamed(r.effects, r.board)
  {
    if t.TaskObject? {
      var draft := Draft(t, env);
      var out := StickyStore.AddTask(b.tasks, draft, env.now, env.iso(env.now));
      StickyStore.AddKeepsKeyedById(b.tasks, draft, env.now, env.iso(env.now));
      var b1 := b.(tasks := out.store);
      Fanout.BroadcastKeepsWellFormed(b1, NewTask(out.response.task), env.broken);
      BroadcastTargetsNamed(b1, NewTask(out.response.task), env.broken);
    }
  }

  lemma CompleteTaskKeepsWellFormed(b: Board, id: string, env: Env)
    requires WellFormed(b)
    ensures var r := CompleteTaskById(b, id, env);
            && WellFormed(r.board)
            && SendsToNamed(r.effects, r.board)
  {
    var out := StickyStore.DeleteTask(b.tasks, id);
    var b1 := b.(tasks := out.store);
    Fanout.BroadcastKeepsWellFormed(b1, CompleteTask(id, out.response.result), env.broken);
    BroadcastTargetsNamed(b1, CompleteTask(id, out.response.result), env.broken);
  }

  lemma DispatchKeepsWellFormed(b: Board, s: Session, frame: Frame, env: Env)
    requires WellFormed(b)
    ensures var r := Dispatch(b, s, frame, env);
            && WellFormed(r.board)
            && SendsToNamed(r.effects, r.board)
  {
    if frame.Object? {
      if frame.message.Some? {
        PostMessageKeepsWellFormed(b, s, frame.message.value, env);
      } else if frame.task.Some? {
        AssignTaskKeepsWellFormed(b, s, frame.task.value, env);
      } else if frame.completeTaskId.Some? {
        CompleteTaskKeepsWellFormed(b, frame.completeTaskId.value, env);
      }
    }
  }

  /** Handling a frame keeps the board well formed, and whatever it broadcasts reaches only named connections. */
  lemma ReceiveKeepsWellFormed(b: Board, sock: SocketId, frame: Frame, env: Env)
    requires WellFormed(b)
    ensures var r := Receive(b, sock, frame, env);
            && WellFormed(r.board)
            && SendsToNamed(r.effects, r.board)
  {
    match Lookup(b, sock)
    case None =>
    case Some(s) =>
      assert s.socket == sock;
      if !s.quit && env.allowed && !frame.Unparsable? {
        if s.receivedUserInfo {
          DispatchKeepsWellFormed(b, s, frame, env);
        } else {
          IdentifyKeepsWellFormed(b, s, frame, env);
        }
      }
  }

  /**
   * A close or error event keeps the board well formed; the session leaves the list and is found
   * marked quit; an unnamed session's close changes nothing else; a named one's removes its
   * presence entry and its broadcast reaches only named connections.
   */
  lemma DisconnectKeepsWellFormed(b: Board, sock: SocketId, broken: set<SocketId>)
    requires WellFormed(b)
    ensures var r := Disconnect(b, sock, broken);
            && WellFormed(r.board)
            && SendsToNamed(r.effects, r.board)
            && (Lookup(b, sock).Some? ==>
                  && Lookup(r.board, sock) == Some(Lookup(b, sock).value.(quit := true))
                  && IndexOf(r.board.sessions, sock).None?)
  {
    match Lookup(b, sock)
    case None =>
    case Some(s) =>
      assert s.socket == sock;
      var b1 := b.(sessions := Without(b.sessions, sock), retired := b.retired[sock := s.(quit := true)]);
      WithoutKeepsSessionsOk(b.sessions, b.retired, b.nextSocket, s);
      assert WellFormed(b1);
      assert Lookup(b1, sock) == Some(s.(quit := true));
      if Named(s) {
        NamedDisconnect(b1, s, broken);
      }
  }

  /** Taking the closing session out of the list and retiring it leaves every other socket as it was. */
  lemma RetireKeepsOthers(b: Board, s: Session, k: SocketId)
    requires k != s.socket
    ensures Lookup(b.(sessions := Without(b.sessions, s.socket), retired := b.retired[s.socket := s.(quit := true)]), k)
            == Lookup(b, k)
  {
    IndexOfWithout(b.sessions, s.socket, k);
  }

  /**
   * A close touches no other connection beyond its quit broadcast. After an unnamed session's
   * close every other socket is found exactly as before. After a named session's close every
   * other named session is found as before, marked quit only if its own send of the notice
   * failed.
   */
  lemma DisconnectKeepsOthers(b: Board, sock: SocketId, broken: set<SocketId>)
    requires WellFormed(b)
    ensures var r := Disconnect(b, sock, broken);
            && (Lookup(b, sock).Some? && !Named(Lookup(b, sock).value) ==>
                  forall k :: k != sock ==> Lookup(r.board, k) == Lookup(b, k))
            && (Lookup(b, sock).Some? && Named(Lookup(b, sock).value) ==>
                  forall k :: k != sock && Lookup(b, k).Some? && Named(Lookup(b, k).value) ==>
                    Lookup(r.board, k) ==
                    Some(if k in broken then Lookup(b, k).value.(quit := true) else Lookup(b, k).value))
  {
    match Lookup(b, sock)
    case None =>
    case Some(s) =>
      assert s.socket == sock;
      if Named(s) {
        forall k | k != sock && Lookup(b, k).Some? && Named(Lookup(b, k).value)
          ensures Lookup(Disconnect(b, sock, broken).board, k) ==
                  Some(if k in broken then Lookup(b, k).value.(quit := true) else Lookup(b, k).value)
        {
          NamedCloseKeepsOther(b, s, broken, Lookup(b, k).value);
        }
      } else {
        forall k | k != sock ensures Lookup(Disconnect(b, sock, broken).board, k) == Lookup(b, k) {
          UnnamedCloseKeepsOther(b, s, broken, k);
        }
      }
  }

  /** One other socket, through an unnamed session's close: found exactly as before. */
  lemma UnnamedCloseKeepsOther(b: Board, s: Session, broken: set<SocketId>, k: SocketId)
    requires Lookup(b, s.socket) == Some(s) && !Named(s) && k != s.socket
    ensures Lookup(Disconnect(b, s.socket, broken).board, k) == Lookup(b, k)
  {
    var b1 := b.(sessions := Without(b.sessions, s.socket), retired := b.retired[s.socket := s.(quit := true)]);
    assert Disconnect(b, s.socket, broken).board == b1;
    RetireKeepsOthers(b, s, k);
  }

  /** One other named session, through a named session's close: found as before, or marked quit if its send failed. */
  lemma NamedCloseKeepsOther(b: Board, s: Session, broken: set<SocketId>, x: Session)
    requires WellFormed(b) && Lookup(b, s.socket) == Some(s) && Named(s)
    requires x.socket != s.socket && Named(x) && Lookup(b, x.socket) == Some(x)
    ensures Lookup(Disconnect(b, s.socket, broken).board, x.socket) ==
            Some(if x.socket in broken then x.(quit := true) else x)
  {
    var b1 := b.(sessions := Without(b.sessions, s.socket), retired := b.retired[s.socket := s.(quit := true)]);
    NamedCloseDeparts(b, s, broken);
    WithoutKeepsSessionsOk(b.sessions, b.retired, b.nextSocket, s);
    RetireKeepsOthers(b, s, x.socket);
    DepartKeepsNamed(b1, s.name.value, broken, x);
  }

  /** A named session's close is its retirement followed by the quit broadcast. */
  lemma NamedCloseDeparts(b: Board, s: Session, broken: set<SocketId>)
    requires Lookup(b, s.socket) == Some(s) && Named(s)
    ensures var b1 := b.(sessions := Without(b.sessions, s.socket), retired := b.retired[s.socket := s.(quit := true)]);
            Disconnect(b, s.socket, broken).board == Depart(b1, s.name.value, broken).board
  {
  }

  /** The quit broadcast finds every named session as before, marked quit if its own send failed. */
  lemma DepartKeepsNamed(b: Board, name: string, broken: set<SocketId>, x: Session)
    requires WellFormed(b) && Named(x) && Lookup(b, x.socket) == Some(x)
    ensures Lookup(Depart(b, name, broken).board, x.socket) ==
            Some(if x.socket in broken then x.(quit := true) else x)
  {
    DeleteUserKeepsWellFormed(b, name);
    var b2 := b.(presence := PresenceStore.DeleteUser(b.presence, name).store);
    var ev := Quit(name, Some(PresenceStore.LatestUsers(b2.presence).response.users));
    assert Lookup(b2, x.socket) == Some(x);
    Fanout.BroadcastKeepsLookup(b2, ev, broken, x);
    assert Depart(b, name, broken) == Fanout.BroadcastBoard(b2, ev, broken);
  }

  /**
   * A named session's close sends `{quit: name}`, with the remaining presence entries, to every
   * other named connection in the list whose send succeeds, and queues it for every unnamed one,
   * which stays in the list.
   */
  lemma DisconnectNotifiesOthers(b: Board, sock: SocketId, broken: set<SocketId>)
    requires Lookup(b, sock).Some? && Named(Lookup(b, sock).value)
    ensures var r := Disconnect(b, sock, broken);
            var ev := Quit(Lookup(b, sock).value.name.value,
                           Some(PresenceStore.LatestUsers(r.board.presence).response.users));
            && (forall i :: 0 <= i < |b.sessions| && b.sessions[i].socket != sock && Named(b.sessions[i]) &&
                            b.sessions[i].socket !in broken ==>
                  Sent(b.sessions[i].socket, ev) in r.effects)
            && (forall i :: 0 <= i < |b.sessions| && b.sessions[i].socket != sock && !Named(b.sessions[i]) ==>
                  exists y :: y in r.board.sessions && y.socket == b.sessions[i].socket &&
                    |y.blockedMessages| > |b.sessions[i].blockedMessages| &&
                    y.blockedMessages[..|b.sessions[i].blockedMessages| + 1] == b.sessions[i].blockedMessages + [ev])
  {
    var s := Lookup(b, sock).value;
    var name := s.name.value;
    var b1 := b.(sessions := Without(b.sessions, sock), retired := b.retired[sock := s.(quit := true)]);
    var calls := [PresenceCall(PresenceStore.Delete(name)), PresenceCall(PresenceStore.Latest)];
    var d := Depart(b1, name, broken);
    assert Disconnect(b, sock, broken) == Step(d.board, calls + d.effects);
    forall i | 0 <= i < |b.sessions| && b.sessions[i].socket != sock
      ensures b.sessions[i] in b1.sessions
    {
    }
    DepartReachesNamed(b1, name, broken);
    assert forall e :: e in d.effects ==> e in calls + d.effects;
    DepartQueuesForUnnamed(b1, name, broken);
  }

  /** The quit broadcast sends the notice to every named session in the list whose send succeeds. */
  lemma DepartReachesNamed(b: Board, name: string, broken: set<SocketId>)
    ensures var d := Depart(b, name, broken);
            var ev := Quit(name, Some(PresenceStore.LatestUsers(d.board.presence).response.users));
            forall x :: x in b.sessions && Named(x) && x.socket !in broken ==> Sent(x.socket, ev) in d.effects
  {
    var b2 := b.(presence := PresenceStore.DeleteUser(b.presence, name).store);
    var ev := Quit(name, Some(PresenceStore.LatestUsers(b2.presence).response.users));
    var bc := Fanout.BroadcastBoard(b2, ev, broken);
    assert Depart(b, name, broken) == bc;
    Fanout.BroadcastReachesNamed(b2.sessions, ev, broken);
    forall x | x in b.sessions && Named(x) && x.socket !in broken
      ensures Sent(x.socket, ev) in bc.effects
    {
      var j :| 0 <= j < |b2.sessions| && b2.sessions[j] == x;
    }
  }

  /** The quit broadcast queues the notice, first of what it queues, on every unnamed session in the list. */
  lemma DepartQueuesForUnnamed(b: Board, name: string, broken: set<SocketId>)
    ensures var d := Depart(b, name, broken);
            var ev := Quit(name, Some(PresenceStore.LatestUsers(d.board.presence).response.users));
            forall x :: x in b.sessions && !Named(x) ==>
              exists y :: y in d.board.sessions && y.socket == x.socket &&
                |y.blockedMessages| > |x.blockedMessages| &&
                y.blockedMessages[..|x.blockedMessages| + 1] == x.blockedMessages + [ev]
  {
    var b2 := b.(presence := PresenceStore.DeleteUser(b.presence, name).store);
    var ev := Quit(name, Some(PresenceStore.LatestUsers(b2.presence).response.users));
    var bc := Fanout.BroadcastBoard(b2, ev, broken);
    assert Depart(b, name, broken) == bc;
    Fanout.BroadcastQueuesForUnnamed(b2.sessions, ev, broken);
    var res := Fanout.Broadcast(b2.sessions, ev, broken);
    var notices := Fanout.QuitNotices(res.dropped);
    assert bc.board.sessions == res.sessions && bc.board.presence == b2.presence;
    forall x | x in b.sessions && !Named(x)
      ensures exists y :: y in bc.board.sessions && y.socket == x.socket &&
                |y.blockedMessages| > |x.blockedMessages| &&
                y.blockedMessages[..|x.blockedMessages| + 1] == x.blockedMessages + [ev]
    {
      var j :| 0 <= j < |b2.sessions| && b2.sessions[j] == x;
      QueuedFirst(x, ev, notices, res.sessions);
    }
  }

  /** A session whose queue grew by `ev` and then more has `ev` right after its old queue. */
  lemma QueuedFirst(x: Session, ev: Outbound, rest: seq<Outbound>, ss: seq<Session>)
    requires x.(blockedMessages := x.blockedMessages + [ev] + rest) in ss
    ensures exists y :: y in ss && y.socket == x.socket &&
              |y.blockedMessages| > |x.blockedMessages| &&
              y.blockedMessages[..|x.blockedMessages| + 1] == x.blockedMessages + [ev]
  {
    var y := x.(blockedMessages := x.blockedMessages + [ev] + rest);
    assert y.blockedMessages[..|x.blockedMessages| + 1] == x.blockedMessages + [ev];
  }

  /** A session found marked quit is not in the live list. */
  lemma QuitIsNotLive(b: Board, sock: SocketId)
    requires WellFormed(b) && Lookup(b, sock).Some? && Lookup(b, sock).value.quit
    ensures IndexOf(b.sessions, sock).None?
  {
  }

  /** A broadcast leaves a retired named session where it is: retired, unchanged, out of the list. */
  lemma BroadcastSparesRetired(b: Board, ev: Outbound, broken: set<SocketId>, x: Session)
    requires WellFormed(b) && Named(x) && x.quit && Lookup(b, x.socket) == Some(x)
    requires IndexOf(b.sessions, x.socket).None?
    ensures var bc := Fanout.BroadcastBoard(b, ev, broken);
            && WellFormed(bc.board)
            && SendsToNamed(bc.effects, bc.board)
            && Lookup(bc.board, x.socket) == Some(x)
            && IndexOf(bc.board.sessions, x.socket).None?
  {
    Fanout.BroadcastKeepsWellFormed(b, ev, broken);
    BroadcastTargetsNamed(b, ev, broken);
    Fanout.BroadcastKeepsLookup(b, ev, broken, x);
    QuitIsNotLive(Fanout.BroadcastBoard(b, ev, broken).board, x.socket);
  }

  /** Deleting a presence entry keeps the board well formed and touches no session. */
  lemma DeleteUserKeepsWellFormed(b: Board, name: string)
    requires WellFormed(b)
    ensures var b2 := b.(presence := PresenceStore.DeleteUser(b.presence, name).store);
            && WellFormed(b2)
            && b2.sessions == b.sessions && b2.retired == b.retired
  {
    var p := PresenceStore.DeleteUser(b.presence, name).store;
    assert PresenceStore.KeyedByName(p);
  }

  /** The broadcast half of a named session's close, on the board it has already left. */
  lemma NamedDisconnect(b1: Board, s: Session, broken: set<SocketId>)
    requires WellFormed(b1) && Named(s) && Lookup(b1, s.socket) == Some(s.(quit := true))
    requires IndexOf(b1.sessions, s.socket).None?
    ensures var name := s.name.value;
            var d := Depart(b1, name, broken);
            && WellFormed(d.board)
            && SendsToNamed([PresenceCall(PresenceStore.Delete(name)), PresenceCall(PresenceStore.Latest)] + d.effects, d.board)
            && Lookup(d.board, s.socket) == Some(s.(quit := true))
            && IndexOf(d.board.sessions, s.socket).None?
  {
    var name := s.name.value;
    var b2 := b1.(presence := PresenceStore.DeleteUser(b1.presence, name).store);
    var ev := Quit(name, Some(PresenceStore.LatestUsers(b2.presence).response.users));
    DeleteUserKeepsWellFormed(b1, name);
    QuitBroadcastSparesRetired(b2, name, ev, broken, s.(quit := true));
  }

  /** A broadcast spares a retired session, with the close's two presence calls before its deliveries. */
  lemma QuitBroadcastSparesRetired(b: Board, name: string, ev: Outbound, broken: set<SocketId>, x: Session)
    requires WellFormed(b) && Named(x) && x.quit && Lookup(b, x.socket) == Some(x)
    requires IndexOf(b.sessions, x.socket).None?
    ensures var bc := Fanout.BroadcastBoard(b, ev, broken);
            && WellFormed(bc.board)
            && SendsToNamed([PresenceCall(PresenceStore.Delete(name)), PresenceCall(PresenceStore.Latest)] + bc.effects, bc.board)
            && Lookup(bc.board, x.socket) == Some(x)
            && IndexOf(bc.board.sessions, x.socket).None?
  {
    var calls := [PresenceCall(PresenceStore.Delete(name)), PresenceCall(PresenceStore.Latest)];
    BroadcastSparesRetired(b, ev, broken, x);
    var bc := Fanout.BroadcastBoard(b, ev, broken);
    SendsToNamedFramed(calls, bc.effects, [], bc.board);
    assert calls + bc.effects + [] == calls + bc.effects;
  }

  // ---------------------------------------------------------------------------------------
  // What identification and dispatch leave behind.

  /**
   * A first frame whose `name` is a non-zero number is never refused as too long: the number's
   * text, at most 17 characters, becomes the name and the connection registers.
   */
  lemma NumericNameRegisters(b: Board, s: Session, frame: Frame, env: Env)
    requires frame.Object? && frame.name.Some? && frame.name.value.JNumber? && frame.name.value.n != 0
    ensures IdentityName(frame) == JsText(frame.name.value)
    ensures Identify(b, s, frame, env) == Register(b, s, JsText(frame.name.value), env)
  {
    NumberTextShort(frame.name.value.n);
  }

  /**
   * After the first frame of a live connection, the session's name is the frame's `name` or
   * `'anonymous'`. Within the cap, its queue is empty and it counts as identified (marked quit
   * only if its own `joined` send failed); over the cap, only the name is kept and the
   * connection stays unidentified.
   */
  lemma IdentifyOutcome(b: Board, s: Session, frame: Frame, env: Env)
    requires WellFormed(b) && Lookup(b, s.socket) == Some(s) && !s.quit
    requires !frame.NullValue? && !frame.Unparsable?
    ensures var name := IdentityName(frame);
            var r := Identify(b, s, frame, env);
            var joined := s.(name := Some(name), blockedMessages := [], receivedUserInfo := true);
            && (|name| > MaxNameLength ==> Lookup(r.board, s.socket) == Some(s.(name := Some(name))))
            && (|name| <= MaxNameLength ==>
                  Lookup(r.board, s.socket) == Some(if s.socket in env.broken then joined.(quit := true) else joined))
  {
    var name := IdentityName(frame);
    if |name| > MaxNameLength {
      SaveKeepsWellFormed(b, s.(name := Some(name)));
    } else {
      var joined := s.(name := Some(name), blockedMessages := [], receivedUserInfo := true);
      SaveKeepsWellFormed(b, joined);
      JoinBoardWellFormed(b, s, name, env);
      var b1 := Save(b, joined);
      var b2 := b1.(presence := PresenceStore.AddUser(b1.presence, JoinParams(name, env), env.iso(env.now)).store);
      var ev := Joined(name, PresenceStore.LatestUsers(b2.presence).response.users);
      assert Lookup(b2, s.socket) == Some(joined);
      Fanout.BroadcastKeepsLookup(b2, ev, env.broken, joined);
      assert Identify(b, s, frame, env).board == Fanout.BroadcastBoard(b2, ev, env.broken).board;
    }
  }

  /**
   * The `message` key wins over every other key: an identified connection's frame that carries
   * a message of at most 256 characters persists exactly that message, under the sender's name,
   * and calls no store and answers no ping, whatever else the frame holds.
   */
  lemma MessageKeyWins(b: Board, sock: SocketId, frame: Frame, env: Env)
    requires Lookup(b, sock).Some? && !Lookup(b, sock).value.quit && Lookup(b, sock).value.receivedUserInfo
    requires env.allowed && frame.Object? && frame.message.Some? && |frame.message.value| <= MaxMessageLength
    ensures var r := Receive(b, sock, frame, env);
            var s := Lookup(b, sock).value;
            && r.effects[|r.effects| - 1].Persist?
            && r.effects[|r.effects| - 1].message.message == frame.message.value
            && r.effects[|r.effects| - 1].message.name == OrText(s.name, Anonymous)
            && forall e :: e in r.effects ==> !e.TaskCall? && !e.PresenceCall? && e != Reply(sock, Pong)
  {
    var r := Receive(b, sock, frame, env);
    var n := |r.effects|;
    forall e | e in r.effects
      ensures !e.TaskCall? && !e.PresenceCall? && e != Reply(sock, Pong)
    {
      var i :| 0 <= i < n && r.effects[i] == e;
    }
  }

  /** The frame a board page sends when a task is completed reaches the coordinator's complete-task sequence. */
  lemma CompleteFrameDispatch(b: Board, s: Session, id: string, env: Env)
    ensures Dispatch(b, s, StickyArea.CompleteFrame(id), env) == CompleteTaskById(b, id, env)
    ensures Dispatch(b, s, StickyArea.CompleteFrame(id), env).effects[0] == TaskCall(StickyStore.Delete(id))
  {
  }
}
