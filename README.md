# Random-chat matchmaking and relay server, modelled in Dafny

The server pairs anonymous users for one-to-one chat and forwards WebRTC
signalling between the two sides of a pair. It keeps two pieces of shared
state: `waitingUsers`, a FIFO array of socket ids, and `activePairs`, a map
from each paired socket id to its partner's id. Seven socket handlers work on
that state:

- `find-partner` tears down the caller's pair, filters the caller out of the
  queue, then takes the queue's head and either pairs with it (head still
  connected) or drops it and queues the caller (head stale). With an empty
  queue the caller is queued.
- `next-partner` and `disconnect` tear down the pair and filter the caller out
  of the queue. `next-partner` also schedules a `find-partner` emit back to
  the client. It does not re-match on the server.
- `send-message`, `webrtc-offer`, `webrtc-answer` and `webrtc-ice-candidate`
  look up the sender's partner and forward the payload only if there is one.

Node runs each handler to completion, so each one is modelled as one atomic
step.

Files:

- `protocol.dfy` (module `Protocol`) defines socket ids, payloads, the events
  the server emits, the state, and the invariant. The invariant has four
  parts: pairs are symmetric, nobody is paired with itself, nobody is both
  queued and paired, and the queue has no duplicates.
- `matchmaking.dfy` (module `Matchmaking`) gives each state-changing handler
  as a function from the old state to the new state plus the emits, in
  order. It also holds the lemmas about them.
- `server.dfy` (module `Server`) models the server object. Class `ChatServer`
  has the fields `waitingUsers` and `activePairs` and one method per handler.
  Each state-changing method is proved equal to its function in
  `Matchmaking` and keeps `Valid()`. The relay methods only read the state and
  return what they emit.
- `scenarios.dfy` (module `Scenarios`) runs concrete event sequences with
  three sockets.

How the source is modelled:

- An emit is a record `Emit(target, event)`. Each handler returns the emits
  it made, in order. `socket.emit`, `partnerSocket.emit` and
  `socket.to(id).emit` all become records addressed to that id.
- Socket liveness (`io.sockets.sockets.get(id)` together with `.connected`)
  is an input `live: set<Id>`.
- Socket ids are non-empty strings. That is why the source's truthiness test
  on a looked-up partner id is modelled as "the key is present".

Two consequences of the code that the proofs make explicit:

- The queue never holds more than one id (`ReachableStatesAreValid`). A caller
  is pushed only after the queue has become empty or its only other entry was
  dropped.
- When a pair is made, both sides receive `partner-found` carrying the
  *head's* id. The head is therefore told its own id (server.js:62-63). The
  model keeps this as written. `ThreeJoins` shows it.

Four behaviours of `server.js` that the model keeps as written:

- A stale head is dropped and not retried against the next entry
  (server.js:66-69).
- `next-partner` does not call the matcher. The client is asked to send
  `find-partner` itself (server.js:129-131).
- A partner abandoned by `find-partner` or `next-partner` is not re-queued
  (server.js:41-46, 121-125).
- A chat relay carries `{ message, isOwn: false }` and no sender identity
  (server.js:80-83).

## Model

| member | source | states |
|---|---|---|
| `Matchmaking.Without` | server.js:49 | the filtered queue holds exactly the queued ids other than the removed one, and is no longer than the original |
| `Matchmaking.WithoutAbsent` | server.js:49 | filtering out an id that is not queued leaves the queue unchanged |
| `Matchmaking.WithoutNoDuplicates` | server.js:49 | filtering keeps a duplicate-free queue duplicate-free |
| `Matchmaking.WithoutRemovesOne` | server.js:127 | in a duplicate-free queue, filtering removes only that one entry and keeps everyone else in order |
| `Matchmaking.WithoutHead` | server.js:49-53 | the head after filtering is the longest-waiting id other than the caller, and the rest of the filtered queue is what followed it |
| `Matchmaking.WithoutOnlySelf` | server.js:49-52 | a queue holding only the caller filters to empty |
| `Matchmaking.TearDown` | server.js:40-46 | the id and its partner leave the pair table and the partner is sent `partner-disconnected`; every other entry and the queue are unchanged; with no partner nothing changes and nothing is sent |
| `Matchmaking.FindPartnerStep` | server.js:37-75 | the model of the `find-partner` handler; its own contract says the caller ends up either paired or queued (never both), is paired only with a live id that was queued, and the queue does not grow past one entry; the other properties are in `FindPartnerPreservesInvariant`, `FindPartnerMatchesLongestWaiting`, `FindPartnerDropsStaleHead`, `FindPartnerWaitsAlone`, `FindPartnerAbandonsPartner` and `FindPartnerIsLocal` |
| `Matchmaking.NextPartnerStep` | server.js:118-132 | the model of the `next-partner` handler; its own contract says the caller is neither paired nor queued, no pair is added, the queue does not grow, and the last emit is `find-partner` to the caller; the other properties are in `NextPartnerPreservesInvariant`, `NextPartnerOutcome` and `LeaveQueueKeepsOrder` |
| `Matchmaking.DisconnectStep` | server.js:134-144 | the model of the `disconnect` handler; its own contract says the id is neither paired nor queued, no pair is added, the queue does not grow, and at most one emit is made; the other properties are in `DisconnectPreservesInvariant`, `DisconnectOutcome`, `DisconnectIdempotent` and `LeaveQueueKeepsOrder` |
| `Matchmaking.Apply` | server.js:37-144 | one state-changing event handled to completion; its contract says no handler lets a queue of at most one entry grow past one, nor lets a longer queue grow; the invariant is in `ApplyPreservesInvariant` |
| `Matchmaking.Run` | server.js:34-145 | the event loop handling events one at a time, in order; its contract says a queue of at most one entry stays that way over any run; the invariant over runs is in `RunPreservesInvariant` and `ReachableStatesAreValid` |
| `Matchmaking.TearDownInvariant` | server.js:41-46 | deleting both ends of a pair keeps the table symmetric and free of self-pairs |
| `Matchmaking.LeaveQueueInvariant` | server.js:143 | filtering the caller out of the queue keeps the invariant |
| `Matchmaking.FindPartnerPreservesInvariant` | server.js:37-75 | `find-partner` keeps pairs symmetric, no self-pairs, queue and pairs disjoint, and the queue duplicate-free |
| `Matchmaking.NextPartnerPreservesInvariant` | server.js:118-132 | `next-partner` keeps the invariant |
| `Matchmaking.DisconnectPreservesInvariant` | server.js:134-144 | `disconnect` keeps the invariant |
| `Matchmaking.FindPartnerMatchesLongestWaiting` | server.js:49-65 | FIFO: a live longest-waiting other id is paired with the caller in both directions; both leave the queue; the rest keeps its order; the emits are exactly the teardown's, then `partner-found` with the head's id to the caller and to the head; every other entry of the new pair table was already there with the same partner |
| `Matchmaking.FindPartnerDropsStaleHead` | server.js:53-69 | a stale head leaves the queue unpaired, is sent nothing and is not re-queued; no pair is added; the caller stays unpaired, goes to the tail, and the emits are exactly the teardown's followed by `waiting-for-partner` to the caller |
| `Matchmaking.FindPartnerWaitsAlone` | server.js:70-74 | with nobody else queued the caller becomes the whole queue and stays unpaired; no pair is added; the emits are exactly the teardown's followed by `waiting-for-partner` to the caller |
| `Matchmaking.FindPartnerAbandonsPartner` | server.js:40-46 | a paired caller's old partner is sent `partner-disconnected` first and is left neither paired nor queued |
| `Matchmaking.FindPartnerIsLocal` | server.js:37-75 | only the caller, its old partner and the popped head are sent anything; every pair not involving the caller is kept |
| `Matchmaking.NextPartnerOutcome` | server.js:118-132 | caller and old partner end up unpaired and unqueued; the partner gets `partner-disconnected` and the caller `find-partner`, nothing else; the queue only loses the caller; no pair is created; every pair not involving the caller or its old partner is kept |
| `Matchmaking.DisconnectOutcome` | server.js:134-144 | the id is in neither structure; the old partner is unpaired, unqueued and the only one notified; other pairs are kept and none is added |
| `Matchmaking.DisconnectIdempotent` | server.js:134-144 | a second `disconnect` for the same id changes nothing and emits nothing |
| `Matchmaking.LeaveQueueKeepsOrder` | server.js:143 | leaving the queue on `next-partner` or `disconnect` removes the caller's one entry and keeps the order of the others |
| `Matchmaking.ApplyPreservesInvariant` | server.js:37-144 | each state-changing handler keeps the invariant and keeps the queue at most one long |
| `Matchmaking.RunPreservesInvariant` | server.js:34-145 | any sequence of handled events keeps the invariant and the one-entry queue bound |
| `Matchmaking.ReachableStatesAreValid` | server.js:31-32 | every state reachable from the empty server satisfies the invariant and has at most one waiting id |
| `Protocol.InitialInvariant` | server.js:31-32 | the empty queue and empty map satisfy the invariant |
| `Protocol.PairedSymmetric` | server.js:58-59 | under the invariant, `a` is paired with `b` if and only if `b` is paired with `a` |
| `Server.ChatServer.constructor` | server.js:31-32 | a new server starts with an empty queue and no pairs, and is valid |
| `Server.ChatServer.OnFindPartner` | server.js:37-75 | the new fields and the emits are those of `FindPartnerStep`, and the object stays valid |
| `Server.ChatServer.OnSendMessage` | server.js:77-85 | a paired sender's message goes only to the partner, as `receive-message` with `isOwn` false; an unpaired sender causes no emit; on a valid server the target is not the sender and is paired back with it |
| `Server.ChatServer.OnWebrtcOffer` | server.js:88-96 | a paired sender's offer goes only to the partner with `from` set to the sender's id; otherwise no emit; on a valid server the target is not the sender and is paired back with it |
| `Server.ChatServer.OnWebrtcAnswer` | server.js:98-106 | a paired sender's answer goes only to the partner with `from` set to the sender's id; otherwise no emit; on a valid server the target is not the sender and is paired back with it |
| `Server.ChatServer.OnWebrtcIceCandidate` | server.js:108-116 | a paired sender's ICE candidate goes only to the partner with `from` set to the sender's id; otherwise no emit; on a valid server the target is not the sender and is paired back with it |
| `Server.ChatServer.OnNextPartner` | server.js:118-132 | the new fields and the emits are those of `NextPartnerStep`, and the object stays valid |
| `Server.ChatServer.OnDisconnect` | server.js:134-144 | the new fields and the emits are those of `DisconnectStep`, and the object stays valid |
| `Scenarios.ThreeJoins` | server.js:37-75 | A, B, C join an empty server: A waits, B pairs with A, C waits alone |
| `Scenarios.StaleHeadScenario` | server.js:53-69 | a waiting socket that has gone away is dropped and the joiner is queued instead |
| `Scenarios.NextPartnerScenario` | server.js:118-132 | after A's `next-partner`, B is notified and stranded; A's follow-up `find-partner` pairs it with the waiting C |
| `Scenarios.DisconnectScenario` | server.js:134-144 | B's disconnect notifies A and removes B; a repeat changes nothing |
| `Scenarios.ServerThreeJoins` | server.js:37-75 | through the class methods, B joining after A emits `partner-found` to B and then to A |

## Left out

- Express, the HTTP server, Socket.IO and CORS configuration, static files, the `/health` endpoint and `server.listen` (server.js:1-28, 147-150): framework wiring with no state of the core.
- `console.log` calls: logging only.
- The connection registry (`io.sockets.sockets.get(id)` and `.connected`, server.js:54-56): Socket.IO internals. They become the input set `live`.
- The one-second `setTimeout` in `next-partner` (server.js:129-131): time is not modelled. Its `find-partner` emit is the last record of the handler's emits. Whether the socket is still connected when the timer fires is not modelled.
- Delivery: an emit to a room or socket that no longer exists is still recorded. What the transport does with it is not modelled. Socket.IO's `socket.to(id).emit` never reaches the sending socket itself, while the model records `Emit(id, …)` even when `id` is the sender; the two differ only in a self-paired state, which `Invariant` rules out (the relay methods prove their target is not the sender on a valid server), but `TearDown` and the relay methods are stated without that requirement.
- Payload contents (`data.message`, `data.offer`, `data.answer`, `data.candidate`): an uninterpreted type `Payload`. A payload object that lacks the field (JavaScript `undefined`) is not distinguished.
- Relay events sent with no payload object at all: when `data` is `undefined` or `null`, reading `data.message`, `data.offer`, `data.answer` or `data.candidate` (server.js:81, 92, 102, 112) throws a TypeError before anything is emitted. The relay methods always receive a payload and forward it; that failure path is not modelled.
- Concurrency: the Node event loop serialises handlers, so each one is one atomic step.
- The browser client (`public/client.js`): peer-connection setup, media tracks and DOM updates are browser APIs. It is not part of this model.
