/**
 * A board over a sequence of events: connections accepted, frames received and connections
 * closed, each handled to completion in turn. Over any such run the board stays well formed
 * and the chat messages it persists carry strictly increasing timestamps, however the clock
 * behaves.
 */
module Timeline {
  import opened Records
  import opened BoardState
  import opened Coordinator
  import Invariants
  import Fanout
  import PresenceStore
  import opened Defaults

  /** One event the coordinator handles: a new connection, a frame arriving on one, or its close. */
  datatype Input =
    | Opened
    | Arrived(sock: SocketId, frame: Frame, env: Env)
    | Closed(sock: SocketId, broken: set<SocketId>)

  /** One event's step. */
  function Apply(b: Board, input: Input): Step {
    match input
    case Opened => Step(Accept(b).0, [])
    case Arrived(sock, frame, env) => Receive(b, sock, frame, env)
    case Closed(sock, broken) => Disconnect(b, sock, broken)
  }

  /** The events in order: the final board and every effect, in the order performed. */
  function Run(b: Board, inputs: seq<Input>): Step
    decreases |inputs|
  {
    if inputs == [] then Step(b, [])
    else
      var first := Apply(b, inputs[0]);
      var rest := Run(first.board, inputs[1..]);
      Step(rest.board, first.effects + rest.effects)
  }

  /** The chat messages written to storage, in order. */
  function Persisted(effects: seq<Effect>): seq<Message> {
    if effects == [] then []
    else (if effects[0].Persist? then [effects[0].message] else []) + Persisted(effects[1..])
  }

  predicate StrictlyIncreasing(ms: seq<Message>) {
    forall i, j :: 0 <= i < j < |ms| ==> ms[i].timestamp < ms[j].timestamp
  }

  lemma {:induction false} PersistedAppend(a: seq<Effect>, c: seq<Effect>)
    ensures Persisted(a + c) == Persisted(a) + Persisted(c)
  {
    if a != [] {
      assert (a + c)[1..] == a[1..] + c;
      PersistedAppend(a[1..], c);
    } else {
      assert a + c == c;
    }
  }

  lemma {:induction false} PersistedNone(effects: seq<Effect>)
    requires forall e :: e in effects ==> !e.Persist?
    ensures Persisted(effects) == []
  {
    if effects != [] {
      assert effects[0] in effects;
      PersistedNone(effects[1..]);
    }
  }

  /**
   * One frame persists at most one message. If it does, the message's timestamp is the board's
   * new `lastTimestamp`, above the old one, and the message is stored under its id; if it does
   * not, neither the counter nor the stored messages change.
   */
  lemma ReceiveTimestamp(b: Board, sock: SocketId, frame: Frame, env: Env)
    ensures var r := Receive(b, sock, frame, env);
            && |Persisted(r.effects)| <= 1
            && (Persisted(r.effects) == [] ==>
                  r.board.lastTimestamp == b.lastTimestamp && r.board.messages == b.messages)
            && (|Persisted(r.effects)| == 1 ==>
                  var m := Persisted(r.effects)[0];
                  && b.lastTimestamp < m.timestamp == r.board.lastTimestamp
                  && r.board.messages == b.messages[m.id := m])
  {
    var r := Receive(b, sock, frame, env);
    if Lookup(b, sock).Some? && !Lookup(b, sock).value.quit && env.allowed && !frame.Unparsable? {
      var s := Lookup(b, sock).value;
      if !s.receivedUserInfo {
        IdentifyTimestamp(b, s, frame, env);
      } else if frame.Object? && frame.message.Some? {
        PostTimestamp(b, s, frame.message.value, env);
      } else if frame.Object? && frame.task.Some? {
        var t := frame.task.value;
        if t.TaskObject? {
          assert forall e :: e in r.effects[1..] ==> !e.Persist?;
          PersistedNone(r.effects[1..]);
          assert r.effects == [r.effects[0]] + r.effects[1..];
          PersistedAppend([r.effects[0]], r.effects[1..]);
        }
      } else if frame.Object? && frame.completeTaskId.Some? {
        assert forall e :: e in r.effects[1..] ==> !e.Persist?;
        PersistedNone(r.effects[1..]);
        assert r.effects == [r.effects[0]] + r.effects[1..];
        PersistedAppend([r.effects[0]], r.effects[1..]);
      }
    }
  }

  lemma IdentifyTimestamp(b: Board, s: Session, frame: Frame, env: Env)
    ensures var r := Identify(b, s, frame, env);
            && Persisted(r.effects) == []
            && r.board.lastTimestamp == b.lastTimestamp && r.board.messages == b.messages
  {
    var r := Identify(b, s, frame, env);
    if !frame.NullValue? && !frame.Unparsable? && |IdentityName(frame)| <= MaxNameLength {
      var name := IdentityName(frame);
      assert name != "" by {
        if !(frame.Object? && Given(frame.name)) {
          assert name == Anonymous;
        }
      }
      RegisterPersistsNothing(b, s, name, env);
    } else {
      PersistedNone(r.effects);
    }
  }

  /** Identification writes no chat message. */
  lemma RegisterPersistsNothing(b: Board, s: Session, name: string, env: Env)
    requires name != ""
    ensures Persisted(Register(b, s, name, env).effects) == []
  {
    var b1 := Save(b, s.(name := Some(name), blockedMessages := [], receivedUserInfo := true));
    var params := JoinParams(name, env);
    var b2 := b1.(presence := PresenceStore.AddUser(b1.presence, params, env.iso(env.now)).store);
    var users := PresenceStore.LatestUsers(b2.presence).response.users;
    var bc := Fanout.BroadcastBoard(b2, Joined(name, users), env.broken);
    var flush := Replies(s.socket, s.blockedMessages);
    var calls := [PresenceCall(PresenceStore.Add(params)), PresenceCall(PresenceStore.Latest)];
    Fanout.BroadcastFrames(b2.sessions, Joined(name, users), env.broken);
    assert forall e :: e in flush ==> e.Reply? by {
      forall e | e in flush ensures e.Reply? {
        var i :| 0 <= i < |flush| && flush[i] == e;
      }
    }
    PersistedNone(flush);
    PersistedNone(calls);
    PersistedNone(bc.effects);
    PersistedNone([Reply(s.socket, Ready)]);
    PersistedAppend(flush, calls);
    PersistedAppend(flush + calls, bc.effects);
    PersistedAppend(flush + calls + bc.effects, [Reply(s.socket, Ready)]);
  }

  lemma PostTimestamp(b: Board, s: Session, text: string, env: Env)
    ensures var r := PostMessage(b, s, text, env);
            && |Persisted(r.effects)| <= 1
            && (Persisted(r.effects) == [] ==>
                  r.board.lastTimestamp == b.lastTimestamp && r.board.messages == b.messages)
            && (|Persisted(r.effects)| == 1 ==>
                  var m := Persisted(r.effects)[0];
                  && b.lastTimestamp < m.timestamp == r.board.lastTimestamp
                  && r.board.messages == b.messages[m.id := m])
  {
    var r := PostMessage(b, s, text, env);
    if |text| <= MaxMessageLength {
      var n := |r.effects|;
      assert r.effects == r.effects[..n - 1] + [r.effects[n - 1]];
      assert forall e :: e in r.effects[..n - 1] ==> !e.Persist?;
      PersistedNone(r.effects[..n - 1]);
      PersistedAppend(r.effects[..n - 1], [r.effects[n - 1]]);
    }
  }

  /** A close never persists a message or moves the counter. */
  lemma DisconnectTimestamp(b: Board, sock: SocketId, broken: set<SocketId>)
    ensures var r := Disconnect(b, sock, broken);
            && Persisted(r.effects) == []
            && r.board.lastTimestamp == b.lastTimestamp && r.board.messages == b.messages
  {
    var r := Disconnect(b, sock, broken);
    if Lookup(b, sock).Some? && Named(Lookup(b, sock).value) {
      assert r.effects == r.effects[..2] + r.effects[2..];
      PersistedNone(r.effects[..2]);
      PersistedNone(r.effects[2..]);
      PersistedAppend(r.effects[..2], r.effects[2..]);
    }
  }

  /** The per-event form of the timestamp property. */
  lemma ApplyTimestamp(b: Board, input: Input)
    ensures var r := Apply(b, input);
            && StrictlyIncreasing(Persisted(r.effects))
            && b.lastTimestamp <= r.board.lastTimestamp
            && forall i :: 0 <= i < |Persisted(r.effects)| ==>
                 b.lastTimestamp < Persisted(r.effects)[i].timestamp <= r.board.lastTimestamp
  {
    match input
    case Opened =>
    case Arrived(sock, frame, env) => ReceiveTimestamp(b, sock, frame, env);
    case Closed(sock, broken) => DisconnectTimestamp(b, sock, broken);
  }

  /** Two increasing runs of timestamps, the second above the first, concatenate to one. */
  lemma ConcatIncreasing(p: seq<Message>, q: seq<Message>, lo: int, mid: int, hi: int)
    requires StrictlyIncreasing(p) && StrictlyIncreasing(q)
    requires forall i :: 0 <= i < |p| ==> lo < p[i].timestamp <= mid
    requires forall i :: 0 <= i < |q| ==> mid < q[i].timestamp <= hi
    requires lo <= mid <= hi
    ensures StrictlyIncreasing(p + q)
    ensures forall i :: 0 <= i < |p + q| ==> lo < (p + q)[i].timestamp <= hi
  {
    forall i, j | 0 <= i < j < |p + q|
      ensures (p + q)[i].timestamp < (p + q)[j].timestamp
    {
      if j < |p| {
      } else if i < |p| {
        assert (p + q)[j] == q[j - |p|];
      } else {
        assert (p + q)[i] == q[i - |p|] && (p + q)[j] == q[j - |p|];
      }
    }
    forall i | 0 <= i < |p + q|
      ensures lo < (p + q)[i].timestamp <= hi
    {
      if i >= |p| {
        assert (p + q)[i] == q[i - |p|];
      }
    }
  }

  /**
   * Over any run, the persisted chat messages have strictly increasing timestamps, all above the
   * starting counter and at most the final one.
   */
  lemma {:induction false} RunTimestamps(b: Board, inputs: seq<Input>)
    ensures var r := Run(b, inputs);
            && StrictlyIncreasing(Persisted(r.effects))
            && b.lastTimestamp <= r.board.lastTimestamp
            && forall i :: 0 <= i < |Persisted(r.effects)| ==>
                 b.lastTimestamp < Persisted(r.effects)[i].timestamp <= r.board.lastTimestamp
    decreases |inputs|
  {
    if inputs != [] {
      var first := Apply(b, inputs[0]);
      var rest := Run(first.board, inputs[1..]);
      ApplyTimestamp(b, inputs[0]);
      RunTimestamps(first.board, inputs[1..]);
      PersistedAppend(first.effects, rest.effects);
      assert Run(b, inputs) == Step(rest.board, first.effects + rest.effects);
      ConcatIncreasing(Persisted(first.effects), Persisted(rest.effects),
                       b.lastTimestamp, first.board.lastTimestamp, rest.board.lastTimestamp);
    }
  }

  /** Over any run from a well-formed board, the board stays well formed. */
  lemma {:induction false} RunKeepsWellFormed(b: Board, inputs: seq<Input>)
    requires WellFormed(b)
    ensures WellFormed(Run(b, inputs).board)
    decreases |inputs|
  {
    if inputs != [] {
      match inputs[0] {
        case Opened => Invariants.AcceptKeepsWellFormed(b);
        case Arrived(sock, frame, env) => Invariants.ReceiveKeepsWellFormed(b, sock, frame, env);
        case Closed(sock, broken) => Invariants.DisconnectKeepsWellFormed(b, sock, broken);
      }
      RunKeepsWellFormed(Apply(b, inputs[0]).board, inputs[1..]);
    }
  }

  /** The board a fresh coordinator starts from is well formed. */
  lemma InitialWellFormed()
    ensures WellFormed(Initial)
  {
  }
}
