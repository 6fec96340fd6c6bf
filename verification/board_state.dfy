/**
 * The state of one board's coordinator: its live session list, the sessions it has dropped,
 * the chat-message timestamp counter and message storage, and the storage of the two
 * companion stores it calls (modelled as direct calls).
 */
module BoardState {
  import opened Defaults
  import opened Records
  import Storage
  import StickyStore
  import PresenceStore

  /** Identifies one accepted WebSocket. */
  type SocketId = nat

  /**
   * The `task` field of a frame: `null`, or an object whose fields are `Some` exactly when the
   * key is present, carrying the parsed value. A task that is a number, string or boolean has
   * no such fields and is `TaskObject(None, None, None)`.
   */
  datatype TaskValue =
    | NullTask
    | TaskObject(name: Option<Json>, assignee: Option<Json>, message: Option<Json>)

  /**
   * A client frame after `JSON.parse`. For an object, an `Option` field is `Some` exactly when
   * the key is present: `name` carries the parsed value (the coordinator tests its truthiness),
   * `message` carries the value's string form `'' + v`, `completeTaskId` carries the id as text,
   * and `ping` says whether the key is present.
   */
  datatype Frame =
    | Unparsable
    | NullValue
    | Scalar
    | Object(name: Option<Json>, message: Option<string>, task: Option<TaskValue>,
             completeTaskId: Option<string>, ping: bool)

  /** A server→client frame. */
  datatype Outbound =
    | Ready
    | Error(text: string)
    | Joined(name: string, usersState: seq<UserState>)
    | Quit(name: string, snapshot: Option<seq<UserState>>)  // usersState; absent in the notice for a session broadcast dropped
    | ChatMessage(message: Message)
    | NewTask(task: Task)
    | CompleteTask(taskId: string, response: Storage.DeleteResult)
    | Pong

  /** What a step does outside the board's own memory, in order. */
  datatype Effect =
    | Reply(to: SocketId, frame: Outbound)            // webSocket.send on the handling connection
    | Sent(to: SocketId, frame: Outbound)             // a successful send inside broadcast
    | Close(to: SocketId, code: int, reason: string)  // webSocket.close
    | Persist(message: Message)                       // state.storage.put of a chat message
    | TaskCall(taskRequest: StickyStore.Request)        // fetch to the task store
    | PresenceCall(presenceRequest: PresenceStore.Request)  // fetch to the presence store

  /**
   * One connection. `receivedUserInfo` is the per-connection flag the handler keeps beside the
   * session; `name` is assigned before the name-length check, so it can be set while the flag is not.
   */
  datatype Session = Session(
    socket: SocketId, name: Option<string>, blockedMessages: seq<Outbound>,
    quit: bool, receivedUserInfo: bool)

  /** JavaScript truthiness of `session.name`. */
  predicate Named(s: Session) {
    Truthy(s.name)
  }

  datatype Board = Board(
    sessions: seq<Session>,
    retired: map<SocketId, Session>,
    lastTimestamp: int,
    messages: map<string, Message>,
    tasks: StickyStore.Store,
    presence: PresenceStore.Store,
    nextSocket: nat)

  const Initial := Board([], map[], 0, map[], map[], map[], 0)

  /**
   * Inputs a step reads from outside: the clock, the rate limiter's verdict, the connections a
   * send would fail on, and the conversion of a millisecond time to its ISO-8601 string.
   */
  datatype Env = Env(now: int, allowed: bool, broken: set<SocketId>, iso: int -> string)

  datatype Step = Step(board: Board, effects: seq<Effect>)

  const MaxNameLength := 32
  const MaxMessageLength := 256
  const CloseBroken := 1011
  const CloseNameTooLong := 1009
  const GenericError := "Something went wrong"
  const RateLimitedError := "Your IP is being rate-limited, please try again later."
  const NameTooLongError := "Name too long."
  const MessageTooLongError := "Message too long."
  const BrokenReason := "WebSocket broken."

  /** Position of the live session on `sock`, if any. */
  function IndexOf(ss: seq<Session>, sock: SocketId): (r: Option<nat>)
    ensures r.Some? ==> r.value < |ss| && ss[r.value].socket == sock
    ensures r.None? ==> forall i :: 0 <= i < |ss| ==> ss[i].socket != sock
  {
    if ss == [] then None
    else if ss[0].socket == sock then Some(0)
    else match IndexOf(ss[1..], sock)
      case None => None
      case Some(i) => Some(i + 1)
  }

  /** The session object behind `sock`, whether still in the list or already dropped. */
  function Lookup(b: Board, sock: SocketId): Option<Session> {
    Find(b.sessions, b.retired, sock)
  }

  function Find(ss: seq<Session>, retired: map<SocketId, Session>, sock: SocketId): Option<Session> {
    match IndexOf(ss, sock)
    case Some(i) => Some(ss[i])
    case None => if sock in retired then Some(retired[sock]) else None
  }

  /** Replace the session object on `s.socket` wherever it is kept. */
  function Save(b: Board, s: Session): Board {
    match IndexOf(b.sessions, s.socket)
    case Some(i) => b.(sessions := b.sessions[i := s])
    case None => b.(retired := b.retired[s.socket := s])
  }

  /** The list without the session on `sock` (`sessions.filter(member => member !== session)`). */
  function Without(ss: seq<Session>, sock: SocketId): (r: seq<Session>)
    ensures forall i :: 0 <= i < |r| ==> r[i] in ss && r[i].socket != sock
    ensures forall i :: 0 <= i < |ss| && ss[i].socket != sock ==> ss[i] in r
    ensures |r| <= |ss|
  {
    if ss == [] then []
    else if ss[0].socket == sock then Without(ss[1..], sock)
    else [ss[0]] + Without(ss[1..], sock)
  }

  /** Sockets of `ss` are pairwise distinct. */
  predicate DistinctSockets(ss: seq<Session>) {
    forall i, j :: 0 <= i < j < |ss| ==> ss[i].socket != ss[j].socket
  }

  /** Sockets are unique, live sessions are not quit, dropped ones are, and the counter bounds them. */
  predicate SessionsOk(ss: seq<Session>, retired: map<SocketId, Session>, next: nat) {
    && DistinctSockets(ss)
    && (forall i :: 0 <= i < |ss| ==> ss[i].socket !in retired && !ss[i].quit && ss[i].socket < next)
    && (forall k :: k in retired ==> retired[k].socket == k && retired[k].quit && k < next)
  }

  /** The invariant every step keeps. */
  predicate WellFormed(b: Board) {
    && SessionsOk(b.sessions, b.retired, b.nextSocket)
    && (forall id :: id in b.messages ==> b.messages[id].timestamp <= b.lastTimestamp)
    && StickyStore.KeyedById(b.tasks)
    && PresenceStore.KeyedByName(b.presence)
  }
}
