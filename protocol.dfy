/**
 The vocabulary of the chat server: socket ids, relayed payloads, the events
 the server emits, and the two pieces of shared matchmaking state together
 with the invariant every handler keeps.
 */
module Protocol {

  /** A socket id. Socket ids are non-empty strings, so a partner id looked up
      in the pair table is truthy exactly when the lookup found an entry. */
  type Id = s: string | |s| > 0 witness "0"

  /** The body a client hands to a relay event (chat text, session offer,
      session answer, ICE candidate). The server never looks inside it. */
  type Payload

  /** The events the server emits to a client. */
  datatype Event =
    | PartnerFound(partnerId: Id)                 // 'partner-found', { partnerId }
    | WaitingForPartner                           // 'waiting-for-partner'
    | PartnerDisconnected                         // 'partner-disconnected'
    | ReceiveMessage(message: Payload, isOwn: bool)  // 'receive-message', { message, isOwn }
    | WebrtcOffer(offer: Payload, from: Id)       // 'webrtc-offer', { offer, from }
    | WebrtcAnswer(answer: Payload, from: Id)     // 'webrtc-answer', { answer, from }
    | WebrtcIceCandidate(candidate: Payload, from: Id)  // 'webrtc-ice-candidate', { candidate, from }
    | FindPartner                                 // 'find-partner', sent back to the client by next-partner

  /** One emit: the socket (or the room named after it) the event goes to. */
  datatype Emit = Emit(target: Id, event: Event)

  /** The shared state: the FIFO `waitingUsers` array and the `activePairs` map. */
  datatype State = State(waiting: seq<Id>, pairs: map<Id, Id>)

  /** The state after a handler ran, and what it emitted, in order. */
  datatype Outcome = Outcome(state: State, sent: seq<Emit>)

  /** No server state before the first connection. */
  const Initial: State := State([], map[])

  ghost predicate NoDuplicates(q: seq<Id>) {
    forall i, j :: 0 <= i < j < |q| ==> q[i] != q[j]
  }

  /** Whoever `a` is paired with is paired back with `a`. */
  ghost predicate Symmetric(pairs: map<Id, Id>) {
    forall a :: a in pairs ==> pairs[a] in pairs && pairs[pairs[a]] == a
  }

  ghost predicate NoSelfPairs(pairs: map<Id, Id>) {
    forall a :: a in pairs ==> pairs[a] != a
  }

  /** No id is both waiting and paired. */
  ghost predicate Disjoint(s: State) {
    forall a :: a in s.waiting ==> a !in s.pairs
  }

  /** The matchmaking invariant. */
  ghost predicate Invariant(s: State) {
    && NoDuplicates(s.waiting)
    && Symmetric(s.pairs)
    && NoSelfPairs(s.pairs)
    && Disjoint(s)
  }

  /** `a` and `b` are a pair; defined on one side only, symmetric by the lemma below. */
  ghost predicate Paired(pairs: map<Id, Id>, a: Id, b: Id) {
    a in pairs && pairs[a] == b
  }

  lemma InitialInvariant()
    ensures Invariant(Initial)
  {
  }

  /** The invariant makes the pair relation symmetric in the if-and-only-if sense. */
  lemma PairedSymmetric(s: State, a: Id, b: Id)
    requires Invariant(s)
    ensures Paired(s.pairs, a, b) <==> Paired(s.pairs, b, a)
  {
  }
}
