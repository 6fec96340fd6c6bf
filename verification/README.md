# remix-on-the-fridge board core, in Dafny

This project models the server core of a collaborative sticky-note board and proves
properties about it. Each board has one coordinator that holds every open WebSocket of that
board. The coordinator:

- identifies each connection by a display name;
- timestamps, broadcasts and stores chat messages;
- turns `task` frames into task records, and completes tasks, through a task store;
- tracks who is online through a presence store.

The model also covers two small pieces of the web client: the board-name slug helper and the
class-name joiner (`utils.ts`), and the list logic of the sticky-note area (`StickyArea.tsx`).

The coordinator is a pure state machine. A `BoardState.Board` holds:

- the live session list;
- the sessions a broadcast or a close has dropped, whose handlers can still run;
- the message timestamp counter and the stored messages;
- the two companion stores, as maps.

Each handler is a function that returns the new board and the effects it performs, in order. An
effect is one of: a reply on the handler's own socket, a delivery inside a broadcast, a close, a
message write, or a call to one of the stores. The clock, the rate limiter's verdict, the set of
connections whose send would fail, and the ISO-8601 rendering of a time are inputs (`Env`).

Modules, following the source files:

- `Defaults`, `Records`: JavaScript `||` defaulting and the shared record types.
- `KeyOrder`, `Storage`: Durable Object storage as a map. `list({reverse: true, limit: 100})`
  returns the greatest keys first, in code point (UTF-8 byte) order.
- `StickyStore` (`packages/sticky-do/index.ts`) and `PresenceStore`
  (`packages/user-state-do/index.ts`): the two stores' `fetch` routes.
- `BoardState`, `Fanout`, `Coordinator` (`packages/board-do/index.ts`): sessions, `broadcast`,
  and the message and close handlers.
- `Invariants`, `Timeline`: what every step preserves, and runs of many steps.
- `Utils` (`apps/remix-app/app/utils.ts`), `StickyArea`
  (`apps/remix-app/app/components/layout/StickyArea.tsx`).

The `broadcast` function is modelled as written. It makes a filtering pass, then recursively
broadcasts one quit notice per dropped session. The model proves this equal to a closed-form
reference (`Fanout.BroadcastIsReference`), and the broadcast properties are proved about that
reference.

Notes on how the code behaves:

- A chat message is broadcast first and stored after (`index.ts:277`, then `:279`).
- A task's `owner` is the frame's `task.name`, not the sender's session name (`index.ts:291`).
- A rate-limited frame gets the text "Your IP is being rate-limited, please try again later.".
- The limiter is consulted before every frame type, `ping` included.
- The name is stored on the session before the 32-character check (`index.ts:171-174`). So a
  connection refused for a long name counts as named. It is sent broadcasts, and its close
  deletes that name from presence and broadcasts a quit.

## Model

| member | source | states |
|---|---|---|
| KeyOrder.SortedDesc | packages/sticky-do/index.ts:42-46 | the listed keys are exactly the store's keys, each once, strictly descending in code point (UTF-8 byte) order |
| KeyOrder.MaxKey | packages/sticky-do/index.ts:42-45 | the key picked first by a reverse listing is above every other key of the store |
| KeyOrder.BelowTotal | packages/sticky-do/index.ts:42-45 | any two distinct keys are ordered one way or the other, so the reverse listing is well defined |
| KeyOrder.BelowTransitive | packages/sticky-do/index.ts:42-45 | the storage key order is transitive |
| Storage.Delete | packages/sticky-do/index.ts:34-37 | the result is `ok` exactly when the key was present; only that key is removed; every other value is kept |
| Storage.DeleteTwice | packages/sticky-do/index.ts:32-39 | a second delete of a key reports `failed` and changes nothing |
| Storage.ListKeys | packages/sticky-do/index.ts:42-45 | at most `limit` keys, all stored, strictly descending, and every key left out is below every key listed |
| Storage.Latest | packages/sticky-do/index.ts:42-46 | the listed values are those of the listed keys, in the same order, min(100, size) of them |
| StickyStore.Create | packages/sticky-do/index.ts:19-26 | each truthy field is kept and the rest take the defaults, so the record never has an empty title, status, owner or assignee |
| StickyStore.AddTask | packages/sticky-do/index.ts:17-30 | each field is kept if truthy, else replaced by its default (`no title`, `pending`, `anonymous`, the clock); the record is stored under its id, returned as stored, and no other key changes |
| StickyStore.DeleteTask | packages/sticky-do/index.ts:32-39 | answers `ok` exactly when the id was stored, removes only that id, leaves other records unchanged; a store keyed by id stays so and holds no task with that id |
| StickyStore.LatestTasks | packages/sticky-do/index.ts:41-48 | lists at most 100 stored tasks and leaves the store unchanged |
| StickyStore.Handle | packages/sticky-do/index.ts:13-52 | status 404 exactly for an unknown path, which leaves the store unchanged; each route's effect on the store and its answer |
| StickyStore.DeleteIsIdempotent | packages/sticky-do/index.ts:32-39 | a second delete of an id answers `failed` with status 200 and leaves the store as the first left it |
| StickyStore.ReAddIsNoop | packages/sticky-do/index.ts:19-30 | re-adding the record `/add` returned, at any later time, returns that same record and changes nothing |
| StickyStore.AddKeepsKeyedById | packages/sticky-do/index.ts:28 | after `/add` every record is still stored under its own id |
| StickyStore.LatestOrder | packages/sticky-do/index.ts:41-48 | at most 100 tasks, ids strictly descending, every unlisted id below every listed one |
| PresenceStore.Create | packages/user-state-do/index.ts:22-26 | a truthy id and name are kept, else the clock's id and `anonymous`, so the name is never empty; online exactly when `true` was passed |
| PresenceStore.AddUser | packages/user-state-do/index.ts:20-30 | name is kept if truthy, else `anonymous`; online is true exactly when `true` was passed; id kept if truthy, else generated; stored under the name and returned as stored |
| PresenceStore.DeleteUser | packages/user-state-do/index.ts:32-39 | answers `ok` exactly when the key was stored, removes only that key; a store keyed by name stays so and holds no entry for that name |
| PresenceStore.LatestUsers | packages/user-state-do/index.ts:41-48 | lists at most 100 stored entries and leaves the store unchanged |
| PresenceStore.Handle | packages/user-state-do/index.ts:16-52 | status 404 exactly for an unknown path, which leaves the store unchanged; each route's effect and answer |
| PresenceStore.AddKeepsKeyedByName | packages/user-state-do/index.ts:28 | after `/add` every entry is stored under its own name, so one name has at most one entry |
| PresenceStore.ReAddReplaces | packages/user-state-do/index.ts:22-28 | re-adding a name keeps the key set and leaves the second entry as the one stored |
| PresenceStore.DeleteIsIdempotent | packages/user-state-do/index.ts:32-39 | a second delete answers `failed` with status 200 and changes nothing |
| PresenceStore.LatestOrder | packages/user-state-do/index.ts:41-47 | at most 100 entries, names strictly descending, every unlisted name below every listed one |
| BoardState.Without | packages/board-do/index.ts:334 | the list without the session keeps exactly the original list's sessions on other sockets, and none on that socket |
| Invariants.WithoutAppend | packages/board-do/index.ts:334 | removing a socket from two lists joined is removing it from each, so the remaining sessions keep their order |
| Invariants.IndexOfWithout | packages/board-do/index.ts:334 | after one socket is removed from the list, every other socket is found, or not, exactly as before and on the same session |
| Invariants.RetireKeepsOthers | packages/board-do/index.ts:332-334 | moving the closing session out of the list leaves every other socket's lookup unchanged |
| Fanout.SendPass | packages/board-do/index.ts:382-400 | the pass loses no session: the kept sessions and the quitters together are as many as the list |
| Fanout.Broadcast | packages/board-do/index.ts:376-407 | the session list never grows |
| Fanout.NotifyQuitters | packages/board-do/index.ts:402-406 | each quitter's notice broadcast never grows the session list |
| Fanout.BroadcastIsReference | packages/board-do/index.ts:376-407 | the recursive broadcast equals the closed form: every healthy session gets the event and then one notice per dropped session; failures are dropped, marked quit |
| Fanout.BroadcastSendsOnlyToNamed | packages/board-do/index.ts:383-393 | every delivery goes to a named session of the list whose send succeeds, and carries the event or a quit notice |
| Fanout.BroadcastFrames | packages/board-do/index.ts:402-406 | a delivery is the event itself, or a quit notice without presence snapshot |
| Fanout.BroadcastQueuesForUnnamed | packages/board-do/index.ts:394-398 | an unnamed session stays in the list with the event, then the notices, appended to its queue; named survivors are unchanged |
| Fanout.BroadcastDropsExactlyFailures | packages/board-do/index.ts:381-406 | exactly the named sessions whose send fails are dropped and marked quit; survivors keep their order; one quit notice per dropped session follows the event |
| Fanout.BroadcastHealthy | packages/board-do/index.ts:382-400 | when no send fails nothing is dropped and each named session gets the event once |
| Fanout.DeliverKeepsOrder | packages/board-do/index.ts:382 | the surviving sessions are the healthy ones in their original order |
| Fanout.BroadcastBoard | packages/board-do/index.ts:376-407 | a broadcast changes only the session bookkeeping: counter, messages and stores are untouched |
| Fanout.BroadcastKeepsWellFormed | packages/board-do/index.ts:382-392 | a broadcast keeps sockets unique, live sessions not quit and dropped ones quit |
| Fanout.SendsOfReaches | packages/board-do/index.ts:382-386 | the filtering pass sends the event to every named session whose send succeeds |
| Fanout.BroadcastReachesNamed | packages/board-do/index.ts:382-386 | a broadcast delivers the event to every named session whose send succeeds |
| Fanout.BroadcastKeepsLookup | packages/board-do/index.ts:387-391 | after a broadcast a named session is found unchanged, or marked quit if its own send failed |
| Coordinator.Accept | packages/board-do/index.ts:123-127 | a new unnamed session with an empty queue goes at the end of the list on a socket not yet in use |
| Coordinator.Replies | packages/board-do/index.ts:181-183 | the queued frames are sent on the socket one by one, in queue order |
| Coordinator.IdentityName | packages/board-do/index.ts:171 | the name is the text of the frame's `name` when truthy, else `anonymous` (so `null`, `0`, `false` and `""` give `anonymous`), and never empty |
| Defaults.TruthyTextNonEmpty | packages/board-do/index.ts:171 | a truthy parsed value converts to non-empty text |
| Defaults.Forwarded | packages/sticky-do/index.ts:19-25 | a falsy task field reaches the store as missing, so it gets the default; a truthy one as its text |
| Defaults.DigitsBound | packages/board-do/index.ts:171 | a number below 10^k prints with at most k digits |
| Defaults.NumberTextShort | packages/board-do/index.ts:171 | the text of a safe integer has at most 17 characters |
| Coordinator.Register | packages/board-do/index.ts:180-245 | the queue is flushed in order first, then the presence add and read, then only `joined` or quit deliveries, and `ready` last; presence holds the user online |
| Coordinator.Announce | packages/board-do/index.ts:186-238 | the user is added to presence online under the name with the clock's ISO string as id; only `joined` or quit deliveries follow; counter, messages and tasks are untouched |
| Coordinator.JoinEffects | packages/board-do/index.ts:181-240 | the queued frames come first in order, then the presence add and read, then only deliveries, and `ready` last |
| Coordinator.Identify | packages/board-do/index.ts:168-178 | a `null` first frame gets the generic error; a name over 32 characters gets the error and close 1009 with the name stored and nothing else; otherwise registration |
| Coordinator.PostMessage | packages/board-do/index.ts:251-279 | over 256 characters only the error reply; otherwise the timestamp is above the counter and at least the clock, the deliveries come before the single write, which is last |
| Coordinator.Draft | packages/board-do/index.ts:285-292 | the draft carries the clock's id and time and `assigned`; each task field reaches the store as its text when truthy and as missing (so defaulted) exactly when falsy |
| Coordinator.AssignTask | packages/board-do/index.ts:282-303 | the stored task is `assigned`, titled by `task.message`, owned by `task.name`, assigned to `task.assignee` (each as text, defaults when falsy in JavaScript's sense), and is what gets broadcast |
| Coordinator.CompleteTaskById | packages/board-do/index.ts:306-318 | the id is deleted from the task store and the id with `ok`/`failed` is broadcast either way |
| Coordinator.Dispatch | packages/board-do/index.ts:250-323 | a non-object frame gets the generic error; otherwise `message` wins over `task`, over `completeTaskId`, over `ping`; anything else has no effect |
| Coordinator.Receive | packages/board-do/index.ts:142-168 | a quit session only gets close 1011; a denied frame only the rate-limit error; an unparsable one the generic error; then identification or dispatch |
| Coordinator.Disconnect | packages/board-do/index.ts:332-370 | an unnamed session just leaves the list, marked quit; a named one's presence entry is deleted, the rest read, and only quit deliveries follow, the snapshot being the remaining entries |
| Coordinator.Depart | packages/board-do/index.ts:351-369 | the name leaves presence; only quit notices follow, the one with a snapshot names the user and carries up to 100 of the remaining entries |
| Invariants.AcceptKeepsWellFormed | packages/board-do/index.ts:123-127 | accepting keeps the board well formed, finds the new session fresh and every other socket unchanged |
| Invariants.SaveKeepsWellFormed | packages/board-do/index.ts:171 | writing a field of a session keeps the board well formed and touches no other socket |
| Invariants.BroadcastTargetsNamed | packages/board-do/index.ts:383-393 | every delivery of a board broadcast goes to a connection that is named afterwards |
| Invariants.AnnounceKeepsWellFormed | packages/board-do/index.ts:186-238 | the `joined` broadcast keeps the board well formed and delivers only to named connections |
| Invariants.RegisterKeepsWellFormed | packages/board-do/index.ts:180-243 | registration keeps the board well formed and delivers only to named connections |
| Invariants.IdentifyKeepsWellFormed | packages/board-do/index.ts:168-245 | identification keeps the board well formed and delivers only to named connections |
| Invariants.PostMessageKeepsWellFormed | packages/board-do/index.ts:251-279 | a chat message keeps the board well formed, every stored timestamp at most the counter |
| Invariants.AssignTaskKeepsWellFormed | packages/board-do/index.ts:282-303 | a task keeps the board well formed, tasks keyed by id |
| Invariants.CompleteTaskKeepsWellFormed | packages/board-do/index.ts:306-318 | completing a task keeps the board well formed |
| Invariants.DispatchKeepsWellFormed | packages/board-do/index.ts:250-323 | every dispatched frame keeps the board well formed and delivers only to named connections |
| Invariants.ReceiveKeepsWellFormed | packages/board-do/index.ts:142-328 | every frame keeps the board well formed, and nothing is ever delivered to an unnamed connection |
| Invariants.DisconnectKeepsWellFormed | packages/board-do/index.ts:332-370 | a close keeps the board well formed; the session is out of the list and found marked quit |
| Invariants.DepartKeepsNamed | packages/board-do/index.ts:363-366 | the quit broadcast of a named close leaves every named session found unchanged, or marked quit if its own send failed |
| Invariants.DisconnectKeepsOthers | packages/board-do/index.ts:332-370 | a close changes no other session: after an unnamed close every other socket is found as before; after a named one every other named session is found as before, marked quit only if its send failed |
| Invariants.DisconnectNotifiesOthers | packages/board-do/index.ts:351-368 | a named close sends the quit notice with the presence snapshot to every other named session whose send succeeds, and queues it on every unnamed one |
| Invariants.UnnamedCloseKeepsOther | packages/board-do/index.ts:332-334 | an unnamed session's close leaves any other socket found exactly as before |
| Invariants.NamedCloseKeepsOther | packages/board-do/index.ts:332-370 | a named session's close leaves any other named session found as before, marked quit only if its send of the notice failed |
| Invariants.DepartReachesNamed | packages/board-do/index.ts:363-368 | the quit broadcast sends the notice with the remaining presence entries to every named session in the list whose send succeeds |
| Invariants.DepartQueuesForUnnamed | packages/board-do/index.ts:363-368 | the quit broadcast queues the notice, ahead of anything else it queues, on every unnamed session in the list |
| Invariants.NamedDisconnect | packages/board-do/index.ts:351-369 | the quit broadcast of a named close keeps the board well formed and the closed session out of the list |
| Invariants.QuitIsNotLive | packages/board-do/index.ts:333-334 | a session found marked quit is never in the live list |
| Invariants.IdentifyOutcome | packages/board-do/index.ts:171-243 | after the first frame the session's name is the frame's name or `anonymous`; within the cap its queue is empty and it is identified (quit only if its own send failed); over the cap only the name is kept |
| Invariants.NumericNameRegisters | packages/board-do/index.ts:171-174 | a non-zero number as the name is never refused as too long: its text becomes the name and the connection registers |
| Invariants.MessageKeyWins | packages/board-do/index.ts:251-279 | a frame carrying a message is written once with the sender's name, with no store call and no pong, whatever other keys it has |
| Invariants.CompleteFrameDispatch | apps/remix-app/app/components/layout/StickyArea.tsx:71-73 | the client's `{completeTaskId}` frame reaches the coordinator's delete-and-broadcast sequence |
| Timeline.ReceiveTimestamp | packages/board-do/index.ts:262-279 | a frame writes at most one message; if it does, its timestamp is the new counter, above the old one, and it is stored under its id; otherwise counter and messages are unchanged |
| Timeline.IdentifyTimestamp | packages/board-do/index.ts:168-245 | identification writes no message and leaves the counter unchanged |
| Timeline.RegisterPersistsNothing | packages/board-do/index.ts:180-243 | registration writes no chat message |
| Timeline.PostTimestamp | packages/board-do/index.ts:265-279 | a chat frame writes at most one message, timestamped with the new counter |
| Timeline.DisconnectTimestamp | packages/board-do/index.ts:332-370 | a close writes no message and leaves the counter unchanged |
| Timeline.ApplyTimestamp | packages/board-do/index.ts:265-266 | no single event moves the counter backwards, and what it writes is above the old counter |
| Timeline.RunTimestamps | packages/board-do/index.ts:265-266 | over any run the written messages have strictly increasing timestamps, above the start counter and at most the final one, whatever the clock does |
| Timeline.RunKeepsWellFormed | packages/board-do/index.ts:141-372 | over any run of connects, frames and closes the board stays well formed |
| Timeline.InitialWellFormed | packages/board-do/index.ts:34-35 | a fresh coordinator starts well formed |
| Utils.StripDisallowed | apps/remix-app/app/utils.ts:3 | the first pass keeps only `[a-zA-Z0-9_-]` and never lengthens |
| Utils.NormalizeBoardName | apps/remix-app/app/utils.ts:1-6 | the slug is never longer than the input |
| Utils.NormalizeIsSlugify | apps/remix-app/app/utils.ts:1-6 | the three passes equal one pass that keeps `[A-Za-z0-9_-]` in order, maps `_` to `-` and upper to lower case |
| Utils.NormalizeOutputIsSlug | apps/remix-app/app/utils.ts:1-6 | the output contains only `[a-z0-9-]` |
| Utils.NormalizeIdempotent | apps/remix-app/app/utils.ts:1-6 | normalizing twice is normalizing once |
| Utils.NormalizeFixedPoints | apps/remix-app/app/utils.ts:1-6 | a name is unchanged exactly when it is already made of `[a-z0-9-]` |
| Utils.ClassNames | apps/remix-app/app/utils.ts:12-14 | the joined class string is empty exactly when no argument is truthy; its contents are fixed by ClassNamesSingle and ClassNamesAppend |
| Utils.ClassNamesEmpty | apps/remix-app/app/utils.ts:12-14 | the result is empty exactly when no argument is truthy |
| Utils.ClassNamesSingle | apps/remix-app/app/utils.ts:12-14 | one truthy argument is written as itself (`true` as the word), a falsy one not at all |
| Utils.ClassNamesAppend | apps/remix-app/app/utils.ts:12-14 | the result for two argument lists in a row is the two results joined by one space, or whichever is not empty; arguments containing spaces included |
| Utils.TruthyPartsAppend | apps/remix-app/app/utils.ts:13 | filtering the truthy arguments of two lists in a row filters each, keeping order |
| Utils.JoinAppend | apps/remix-app/app/utils.ts:13 | joining two non-empty lists in a row puts exactly one separator between their joins |
| Utils.ClassNamesRoundTrip | apps/remix-app/app/utils.ts:12-14 | splitting the result on spaces gives back the truthy arguments, in order, when none contains a space |
| Utils.TruthyPartsEmpty | apps/remix-app/app/utils.ts:13 | the filter is empty exactly when no argument is truthy |
| Utils.SplitJoin | apps/remix-app/app/utils.ts:13 | joining non-empty space-free words with single spaces can be undone by splitting |
| StickyArea.Assignees | apps/remix-app/app/components/layout/StickyArea.tsx:79-80 | one assignee per task, in task order |
| StickyArea.DedupFrom | apps/remix-app/app/components/layout/StickyArea.tsx:82 | each value once, exactly the values present, in first-occurrence order |
| StickyArea.Dedup | apps/remix-app/app/components/layout/StickyArea.tsx:82 | the result holds every value of the list exactly once, in first-occurrence order |
| StickyArea.People | apps/remix-app/app/components/layout/StickyArea.tsx:76-85 | the people list starts with `all`, has no repeats and holds exactly `all` and the assignees; PeopleFacts adds the order |
| StickyArea.PeopleFacts | apps/remix-app/app/components/layout/StickyArea.tsx:76-85 | the people list starts with `all`, has no repeats, holds exactly `all` and every assignee, ordered by first occurrence among stored then new tasks |
| StickyArea.DedupIdempotent | apps/remix-app/app/components/layout/StickyArea.tsx:82 | deduplicating twice is deduplicating once |
| StickyArea.Visible | apps/remix-app/app/components/layout/StickyArea.tsx:160 | only listed tasks that match the selection are shown; VisibleMembers gives the converse |
| StickyArea.VisibleMembers | apps/remix-app/app/components/layout/StickyArea.tsx:160 | a task is shown exactly when its assignee is the selection or `all` is selected |
| StickyArea.VisibleAppend | apps/remix-app/app/components/layout/StickyArea.tsx:169 | the filter distributes over concatenation, so shown tasks keep their order |
| StickyArea.VisibleAll | apps/remix-app/app/components/layout/StickyArea.tsx:160 | selecting `all` shows every task in order |
| StickyArea.Cards | apps/remix-app/app/components/layout/StickyArea.tsx:159-176 | the cards are the filter applied to the arrived tasks followed by the stored ones |
| StickyArea.CardsFacts | apps/remix-app/app/components/layout/StickyArea.tsx:159-176 | the cards are new tasks then stored tasks, filtered; with `all` they are all of them |
| StickyArea.CompleteTask | apps/remix-app/app/components/layout/StickyArea.tsx:62-74 | the list loses exactly the tasks with the id and is unchanged if none has it; the frame is sent exactly when a socket exists, whether or not the id was listed |
| StickyArea.RemoveId | apps/remix-app/app/components/layout/StickyArea.tsx:67 | only listed tasks with another id survive; RemoveIdMembers gives the converse |
| StickyArea.RemoveIdMembers | apps/remix-app/app/components/layout/StickyArea.tsx:67 | the filter keeps exactly the tasks with another id |
| StickyArea.RemoveIdAppend | apps/remix-app/app/components/layout/StickyArea.tsx:67 | the removal distributes over concatenation, so the kept tasks stay in order |
| StickyArea.CompleteIsRemoval | apps/remix-app/app/components/layout/StickyArea.tsx:65-69 | the guarded update equals the plain filter, and completing twice is completing once |

## Left out

- Rate limiter: the limiter client and its actor are not part of this model. Its verdict is the `allowed` input, and a limiter failure that closes the socket is not modelled.
- HTTP plumbing: the coordinator's `fetch` routes (`/latest`, `/tasks`, `/usersState`, `/websocket`), `WebSocketPair` and `handleErrors` are runtime plumbing. They are left out, and accepting a socket is `Coordinator.Accept`.
- JSON: parsing and serialisation are replaced by the `Frame` and `Outbound` datatypes. A frame that fails to parse is `Unparsable`. The `message` field carries `'' + x` already converted; `name` and the task fields carry the parsed value (`Defaults.Json`), whose truthiness decides the defaults.
- Coordinator.IdentityName: a number is a safe integer (magnitude at most 2^53 - 1), which JavaScript prints as plain digits. Fractions and larger magnitudes are not modelled: JavaScript rounds those or prints them in exponent form (`1e+40`), so `{"name": 1e40}` registers the name `1e+40` in the source and has no counterpart here. Arrays are not modelled either (`Defaults.Json` has no array), because `'' + []` is the empty string although `[]` is truthy, which would give an empty name.
- Coordinator.CompleteTaskById: `completeTaskId` is modelled as text. The source forwards the raw value unchanged to the task store's `/delete` and in the `completeTask` broadcast (`index.ts:311`, `:316`), so a non-string id (`{"completeTaskId": 5}`) is not distinguished from its text.
- Coordinator.AssignTask: a truthy task field that is not a string is stored as its text (`5` becomes `"5"`), whereas the source stores the raw JSON value.
- Time and ids: `Date.now()` is one input per handler, and `toISOString` is an arbitrary function of the time.
- Awaits: each handler runs to completion before the next event. The interleavings the source's `await`s allow are not modelled; for example, `receivedUserInfo` is set only after the presence calls return.
- Failed direct sends: a direct `webSocket.send` on the handler's own socket, and the store calls, never fail in the model. The generic-error path is modelled only for `null`, non-object and unparsable frames, and for a `null` task.
- Coordinator.PostMessage: the 256-character limit counts code points, not UTF-16 code units, so a message with characters outside the Basic Multilingual Plane is measured shorter than the source measures it.
- Coordinator.Identify: the 32-character name limit (`index.ts:174`) counts code points, not UTF-16 code units, so a name with characters outside the Basic Multilingual Plane is measured shorter than the source measures it.
- Utils.ClassNames: number-valued arguments are not modelled. Only strings, booleans and `null`/`undefined` are.
- Dead code: the commented-out message backlog and `usersState` bookkeeping are left out, and so are the coordinator's unused `tasks`, `usersState` and `boardId` fields and the constructors' storage loads.
- `timestampToLocalString` and all rendering, image export and routing of the web client are outside the core.
- Task status values: the model does not restrict `status` to `pending`, `assigned` and `done`, because the store accepts any truthy string.
