/**
 * The board coordinator's handlers as pure steps: accepting a connection, one inbound frame,
 * and a close/error event. Each step takes the board and the outside inputs and returns the
 * new board and the effects in the order the handler performs them. A handler runs to
 * completion before the next one starts.
 */
module Coordinator {
  import opened Defaults
  import opened Records
  import opened BoardState
  import Storage
  import StickyStore
  import PresenceStore
  import Fanout

  /** `Math.max`. */
  function Max(a: int, b: int): int {
    if a < b then b else a
  }

  /** Accept a WebSocket: a new session, with no name and an empty queue, at the end of the list. */
  function Accept(b: Board): (r: (Board, SocketId))
    ensures WellFormed(b) ==> Lookup(b, r.1).None?
    ensures r.0.sessions == b.sessions + [Session(r.1, None, [], false, false)]
    ensures r.0.retired == b.retired && r.0.lastTimestamp == b.lastTimestamp && r.0.messages == b.messages
    ensures r.0.tasks == b.tasks && r.0.presence == b.presence
  {
    var sock := b.nextSocket;
    (b.(sessions := b.sessions + [Session(sock, None, [], false, false)], nextSocket := sock + 1), sock)
  }

  /** `webSocket.send` of each frame in order. */
  function Replies(sock: SocketId, frames: seq<Outbound>): (r: seq<Effect>)
    ensures |r| == |frames|
    ensures forall i :: 0 <= i < |r| ==> r[i] == Reply(sock, frames[i])
  {
    if frames == [] then [] else [Reply(sock, frames[0])] + Replies(sock, frames[1..])
  }

  /** `'' + (data.name || 'anonymous')` for a first frame that is not `null`. */
  function IdentityName(frame: Frame): (r: string)
    ensures frame.Object? && Given(frame.name) ==> r == JsText(frame.name.value)
    ensures !(frame.Object? && Given(frame.name)) ==> r == Anonymous
    ensures r != ""
  {
    if frame.Object? && Given(frame.name) then
      TruthyTextNonEmpty(frame.name.value);
      JsText(frame.name.value)
    else Anonymous
  }

  /** The presence entry the coordinator submits for a newly identified user. */
  function JoinParams(name: string, env: Env): PresenceStore.UserParams {
    PresenceStore.UserParams(Some(env.iso(env.now)), Some(name), Some(true))
  }

  /**
   * Successful identification as `name`: the queued frames go out first, in order, and the queue
   * empties; then the presence entry is added and the snapshot read; then `joined` is broadcast
   * (only ever sent to named sessions); `ready` is the last thing sent.
   */
  function Register(b: Board, s: Session, name: string, env: Env): (r: Step)
    requires name != ""
    ensures var q := |s.blockedMessages|;
            && |r.effects| >= q + 3
            && r.effects[..q] == Replies(s.socket, s.blockedMessages)
            && r.effects[q..q + 2] ==
               [PresenceCall(PresenceStore.Add(JoinParams(name, env))), PresenceCall(PresenceStore.Latest)]
            && (forall e :: e in r.effects[q + 2..|r.effects| - 1] ==>
                  e.Sent? && (e.frame.Joined? || e.frame.Quit?))
            && r.effects[|r.effects| - 1] == Reply(s.socket, Ready)
    ensures name in r.board.presence && r.board.presence[name] == UserState(env.iso(env.now), name, true)
    ensures r.board.lastTimestamp == b.lastTimestamp && r.board.messages == b.messages && r.board.tasks == b.tasks
  {
    var bc := Announce(b, s, name, env);
    Step(bc.board, JoinEffects(s, name, env, bc.effects))
  }

  /**
   * The middle of identification: the session is saved as identified, the user is added to
   * presence, and `joined` with the presence snapshot is broadcast.
   */
  function Announce(b: Board, s: Session, name: string, env: Env): (r: Step)
    requires name != ""
    ensures forall e :: e in r.effects ==> e.Sent? && (e.frame.Joined? || e.frame.Quit?)
    ensures name in r.board.presence && r.board.presence[name] == UserState(env.iso(env.now), name, true)
    ensures r.board.lastTimestamp == b.lastTimestamp && r.board.messages == b.messages && r.board.tasks == b.tasks
  {
    var b1 := Save(b, s.(name := Some(name), blockedMessages := [], receivedUserInfo := true));
    assert b1.presence == b.presence;
    var params := JoinParams(name, env);
    var b2 := b1.(presence := PresenceStore.AddUser(b1.presence, params, env.iso(env.now)).store);
    var ev := Joined(name, PresenceStore.LatestUsers(b2.presence).response.users);
    var bc := Fanout.BroadcastBoard(b2, ev, env.broken);
    Fanout.BroadcastFrames(b2.sessions, ev, env.broken);
    assert forall e :: e in bc.effects ==> e.Sent? && (e.frame == ev || e.frame.Quit?);
    bc
  }

  /**
   * An identification's effects: the queued frames, the two presence calls, the `joined`
   * broadcast's deliveries and `ready`, and where each part sits.
   */
  function JoinEffects(s: Session, name: string, env: Env, mid: seq<Effect>): (x: seq<Effect>)
    requires forall e :: e in mid ==> e.Sent? && (e.frame.Joined? || e.frame.Quit?)
    ensures var q := |s.blockedMessages|;
            && |x| >= q + 3
            && x[..q] == Replies(s.socket, s.blockedMessages)
            && x[q..q + 2] == [PresenceCall(PresenceStore.Add(JoinParams(name, env))), PresenceCall(PresenceStore.Latest)]
            && (forall e :: e in x[q + 2..|x| - 1] ==> e.Sent? && (e.frame.Joined? || e.frame.Quit?))
            && x[|x| - 1] == Reply(s.socket, Ready)
  {
    var flush := Replies(s.socket, s.blockedMessages);
    var x := flush
             + [PresenceCall(PresenceStore.Add(JoinParams(name, env))), PresenceCall(PresenceStore.Latest)]
             + mid + [Reply(s.socket, Ready)];
    assert x[|flush| + 2..|x| - 1] == mid;
    x
  }

  /** The first frame of a connection: identification. */
  function Identify(b: Board, s: Session, frame: Frame, env: Env): (r: Step)
    ensures frame.NullValue? || frame.Unparsable? ==> r == Step(b, [Reply(s.socket, Error(GenericError))])
    ensures !frame.NullValue? && !frame.Unparsable? && |IdentityName(frame)| > MaxNameLength ==>
              && r.effects == [Reply(s.socket, Error(NameTooLongError)), Close(s.socket, CloseNameTooLong, NameTooLongError)]
              && r.board == Save(b, s.(name := Some(IdentityName(frame))))
    ensures !frame.NullValue? && !frame.Unparsable? && |IdentityName(frame)| <= MaxNameLength ==>
              r == Register(b, s, IdentityName(frame), env)
  {
    if frame.NullValue? || frame.Unparsable? then Step(b, [Reply(s.socket, Error(GenericError))])
    else
      var name := IdentityName(frame);
      if |name| > MaxNameLength then
        Step(Save(b, s.(name := Some(name))),
             [Reply(s.socket, Error(NameTooLongError)), Close(s.socket, CloseNameTooLong, NameTooLongError)])
      else Register(b, s, name, env)
  }

  /** The message sequence: length check, monotonic timestamp, broadcast, then persist. */
  function PostMessage(b: Board, s: Session, text: string, env: Env): (r: Step)
    ensures |text| > MaxMessageLength ==> r == Step(b, [Reply(s.socket, Error(MessageTooLongError))])
    ensures |text| <= MaxMessageLength ==>
              var ts := r.board.lastTimestamp;
              var m := Message(env.iso(ts), text, OrText(s.name, Anonymous), ts);
              && ts > b.lastTimestamp && ts >= env.now
              && (ts == env.now || ts == b.lastTimestamp + 1)
              && |r.effects| > 0 && r.effects[|r.effects| - 1] == Persist(m)
              && (forall i :: 0 <= i < |r.effects| - 1 ==>
                    r.effects[i].Sent? && (r.effects[i].frame == ChatMessage(m) || r.effects[i].frame.Quit?))
              && r.board.messages == b.messages[m.id := m]
              && r.board.tasks == b.tasks && r.board.presence == b.presence
  {
    if |text| > MaxMessageLength then Step(b, [Reply(s.socket, Error(MessageTooLongError))])
    else
      var ts := Max(env.now, b.lastTimestamp + 1);
      var msg := Message(env.iso(ts), text, OrText(s.name, Anonymous), ts);
      var bc := Fanout.BroadcastBoard(b.(lastTimestamp := ts), ChatMessage(msg), env.broken);
      Fanout.BroadcastSendsOnlyToNamed(b.sessions, ChatMessage(msg), env.broken);
      Step(bc.board.(messages := bc.board.messages[msg.id := msg]), bc.effects + [Persist(msg)])
  }

  /** The draft task the coordinator submits for a `task` frame. */
  function Draft(t: TaskValue, env: Env): (r: StickyStore.TaskParams)
    requires t.TaskObject?
    ensures r.id == Some(env.iso(env.now)) && r.timestamp == Some(env.now) && r.status == Some(StatusAssigned)
    ensures Given(t.message) ==> r.title == Some(JsText(t.message.value))
    ensures Given(t.name) ==> r.owner == Some(JsText(t.name.value))
    ensures Given(t.assignee) ==> r.assignee == Some(JsText(t.assignee.value))
    ensures !Truthy(r.title) <==> !Given(t.message)
    ensures !Truthy(r.owner) <==> !Given(t.name)
    ensures !Truthy(r.assignee) <==> !Given(t.assignee)
  {
    StickyStore.TaskParams(
      Some(env.iso(env.now)), Forwarded(t.message), Some(env.now), Some(StatusAssigned),
      Forwarded(t.name), Forwarded(t.assignee))
  }

  /**
   * The task sequence: submit the draft, then broadcast the record the task store returns.
   * The record is assigned, its title is the frame's `task.message`, its owner the frame's
   * `task.name` (not the sender's session name) and its assignee the frame's `task.assignee`,
   * each as text, replaced by the store's default when missing or falsy (`null`, `false`, `0`, `""`).
   */
  function AssignTask(b: Board, s: Session, t: TaskValue, env: Env): (r: Step)
    ensures t.NullTask? ==> r == Step(b, [Reply(s.socket, Error(GenericError))])
    ensures t.TaskObject? ==>
              var stored := StickyStore.Create(Draft(t, env), env.now, env.iso(env.now));
              && stored.status == StatusAssigned
              && (Given(t.message) ==> stored.title == JsText(t.message.value))
              && (!Given(t.message) ==> stored.title == StickyStore.NoTitle)
              && (Given(t.name) ==> stored.owner == JsText(t.name.value))
              && (!Given(t.name) ==> stored.owner == Anonymous)
              && (Given(t.assignee) ==> stored.assignee == JsText(t.assignee.value))
              && (!Given(t.assignee) ==> stored.assignee == Anonymous)
              && r.board.tasks == b.tasks[stored.id := stored]
              && |r.effects| >= 1 && r.effects[0] == TaskCall(StickyStore.Add(Draft(t, env)))
              && (forall e :: e in r.effects[1..] ==> e.Sent? && (e.frame == NewTask(stored) || e.frame.Quit?))
              && r.board.lastTimestamp == b.lastTimestamp && r.board.messages == b.messages
              && r.board.presence == b.presence
  {
    if t.NullTask? then Step(b, [Reply(s.socket, Error(GenericError))])
    else
      var draft := Draft(t, env);
      var out := StickyStore.AddTask(b.tasks, draft, env.now, env.iso(env.now));
      var bc := Fanout.BroadcastBoard(b.(tasks := out.store), NewTask(out.response.task), env.broken);
      Fanout.BroadcastSendsOnlyToNamed(b.sessions, NewTask(out.response.task), env.broken);
      assert ([TaskCall(StickyStore.Add(draft))] + bc.effects)[1..] == bc.effects;
      Step(bc.board, [TaskCall(StickyStore.Add(draft))] + bc.effects)
  }

  /**
   * The complete-task sequence: delete from the task store, then broadcast the id with the
   * store's answer, `ok` or `failed` — whether or not the id was stored.
   */
  function CompleteTaskById(b: Board, id: string, env: Env): (r: Step)
    ensures r.board.tasks == b.tasks - {id}
    ensures |r.effects| >= 1 && r.effects[0] == TaskCall(StickyStore.Delete(id))
    ensures var answer := if id in b.tasks then Storage.Ok else Storage.Failed;
            forall e :: e in r.effects[1..] ==> e.Sent? && (e.frame == CompleteTask(id, answer) || e.frame.Quit?)
    ensures r.board.lastTimestamp == b.lastTimestamp && r.board.messages == b.messages
    ensures r.board.presence == b.presence
  {
    var out := StickyStore.DeleteTask(b.tasks, id);
    var bc := Fanout.BroadcastBoard(b.(tasks := out.store), CompleteTask(id, out.response.result), env.broken);
    Fanout.BroadcastSendsOnlyToNamed(b.sessions, CompleteTask(id, out.response.result), env.broken);
    assert ([TaskCall(StickyStore.Delete(id))] + bc.effects)[1..] == bc.effects;
    Step(bc.board, [TaskCall(StickyStore.Delete(id))] + bc.effects)
  }

  /**
   * A frame on an identified connection. A `null` or non-object frame fails; an object is
   * dispatched on the first key present in the order `message`, `task`, `completeTaskId`,
   * `ping`, and any other object is ignored.
   */
  function Dispatch(b: Board, s: Session, frame: Frame, env: Env): (r: Step)
    ensures !frame.Object? ==> r == Step(b, [Reply(s.socket, Error(GenericError))])
    ensures frame.Object? && frame.message.Some? ==> r == PostMessage(b, s, frame.message.value, env)
    ensures frame.Object? && frame.message.None? && frame.task.Some? ==> r == AssignTask(b, s, frame.task.value, env)
    ensures frame.Object? && frame.message.None? && frame.task.None? && frame.completeTaskId.Some? ==>
              r == CompleteTaskById(b, frame.completeTaskId.value, env)
    ensures frame.Object? && frame.message.None? && frame.task.None? && frame.completeTaskId.None? ==>
              r == Step(b, if frame.ping then [Reply(s.socket, Pong)] else [])
  {
    match frame
    case Object(_, message, task, completeTaskId, ping) =>
      if message.Some? then PostMessage(b, s, message.value, env)
      else if task.Some? then AssignTask(b, s, task.value, env)
      else if completeTaskId.Some? then CompleteTaskById(b, completeTaskId.value, env)
      else if ping then Step(b, [Reply(s.socket, Pong)])
      else Step(b, [])
    case _ => Step(b, [Reply(s.socket, Error(GenericError))])
  }

  /**
   * The `message` event listener of the connection `sock`. A quit session only gets a
   * close(1011); a frame the rate limiter denies only gets an error reply; an unparsable frame
   * only gets the generic error; the first frame identifies; later frames are dispatched.
   */
  function Receive(b: Board, sock: SocketId, frame: Frame, env: Env): (r: Step)
    ensures Lookup(b, sock).None? ==> r == Step(b, [])
    ensures Lookup(b, sock).Some? && Lookup(b, sock).value.quit ==>
              r == Step(b, [Close(sock, CloseBroken, BrokenReason)])
    ensures Lookup(b, sock).Some? && !Lookup(b, sock).value.quit && !env.allowed ==>
              r == Step(b, [Reply(sock, Error(RateLimitedError))])
    ensures Lookup(b, sock).Some? && !Lookup(b, sock).value.quit && env.allowed && frame.Unparsable? ==>
              r == Step(b, [Reply(sock, Error(GenericError))])
    ensures Lookup(b, sock).Some? && !Lookup(b, sock).value.quit && env.allowed && !frame.Unparsable? ==>
              var s := Lookup(b, sock).value;
              r == if s.receivedUserInfo then Dispatch(b, s, frame, env) else Identify(b, s, frame, env)
  {
    match Lookup(b, sock)
    case None => Step(b, [])
    case Some(s) =>
      if s.quit then Step(b, [Close(sock, CloseBroken, BrokenReason)])
      else if !env.allowed then Step(b, [Reply(sock, Error(RateLimitedError))])
      else if frame.Unparsable? then Step(b, [Reply(sock, Error(GenericError))])
      else if !s.receivedUserInfo then Identify(b, s, frame, env)
      else Dispatch(b, s, frame, env)
  }

  /**
   * The `close` and `error` event listener of the connection `sock`: the session is marked quit
   * and leaves the list. A named session's presence entry is deleted, the remaining entries are
   * read, and its departure is broadcast with them; an unnamed session's close does nothing more.
   */
  function Disconnect(b: Board, sock: SocketId, broken: set<SocketId>): (r: Step)
    ensures Lookup(b, sock).None? ==> r == Step(b, [])
    ensures Lookup(b, sock).Some? && !Named(Lookup(b, sock).value) ==>
              && r.effects == []
              && r.board == b.(sessions := Without(b.sessions, sock),
                               retired := b.retired[sock := Lookup(b, sock).value.(quit := true)])
    ensures Lookup(b, sock).Some? && Named(Lookup(b, sock).value) ==>
              var name := Lookup(b, sock).value.name.value;
              && r.board.presence == b.presence - {name}
              && |r.effects| >= 2
              && r.effects[..2] == [PresenceCall(PresenceStore.Delete(name)), PresenceCall(PresenceStore.Latest)]
              && (forall e :: e in r.effects[2..] ==>
                    && e.Sent? && e.frame.Quit?
                    && (e.frame.snapshot.Some? ==>
                          && e.frame.name == name
                          && |e.frame.snapshot.value| == Storage.Min(Storage.ListLimit, |r.board.presence|)
                          && forall u :: u in e.frame.snapshot.value ==> u in r.board.presence.Values))
    ensures r.board.lastTimestamp == b.lastTimestamp && r.board.messages == b.messages
    ensures r.board.tasks == b.tasks
  {
    match Lookup(b, sock)
    case None => Step(b, [])
    case Some(s) =>
      var b1 := b.(sessions := Without(b.sessions, sock), retired := b.retired[sock := s.(quit := true)]);
      if Named(s) then
        var name := s.name.value;
        var calls := [PresenceCall(PresenceStore.Delete(name)), PresenceCall(PresenceStore.Latest)];
        var d := Depart(b1, name, broken);
        assert (calls + d.effects)[2..] == d.effects;
        Step(d.board, calls + d.effects)
      else Step(b1, [])
  }

  /**
   * The named half of a close: the user's presence entry is deleted and `quit`, with the
   * remaining presence entries, is broadcast.
   */
  function Depart(b: Board, name: string, broken: set<SocketId>): (r: Step)
    ensures r.board.presence == b.presence - {name}
    ensures forall e :: e in r.effects ==>
              && e.Sent? && e.frame.Quit?
              && (e.frame.snapshot.Some? ==>
                    && e.frame.name == name
                    && |e.frame.snapshot.value| == Storage.Min(Storage.ListLimit, |r.board.presence|)
                    && forall u :: u in e.frame.snapshot.value ==> u in r.board.presence.Values)
    ensures r.board.lastTimestamp == b.lastTimestamp && r.board.messages == b.messages
    ensures r.board.tasks == b.tasks
  {
    var b2 := b.(presence := PresenceStore.DeleteUser(b.presence, name).store);
    var ev := Quit(name, Some(PresenceStore.LatestUsers(b2.presence).response.users));
    Fanout.BroadcastFrames(b2.sessions, ev, broken);
    Fanout.BroadcastBoard(b2, ev, broken)
  }
}
