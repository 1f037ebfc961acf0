/**
 Concrete runs of the handlers, with three sockets "A", "B" and "C".
 */
module Scenarios {
  import opened Protocol
  import opened Matchmaking
  import Server

  const A: Id := "A"
  const B: Id := "B"
  const C: Id := "C"

  /** A, B and C send 'find-partner' in turn on an empty server: A waits,
      B is paired with A (both told 'partner-found' with A's id), C waits alone. */
  lemma ThreeJoins()
    ensures var live := {A, B, C};
      var r1 := FindPartnerStep(Initial, A, live);
      var r2 := FindPartnerStep(r1.state, B, live);
      var r3 := FindPartnerStep(r2.state, C, live);
      && r1 == Outcome(State([A], map[]), [Emit(A, WaitingForPartner)])
      && r2 == Outcome(State([], map[B := A, A := B]),
                       [Emit(B, PartnerFound(A)), Emit(A, PartnerFound(A))])
      && r3 == Outcome(State([C], map[B := A, A := B]), [Emit(C, WaitingForPartner)])
  {
  }

  /** A waits, then its socket goes away without a 'disconnect' being handled
      yet; B's 'find-partner' drops A and queues B instead of pairing. */
  lemma StaleHeadScenario()
    ensures var r1 := FindPartnerStep(Initial, A, {A, B});
      var r2 := FindPartnerStep(r1.state, B, {B});
      r2 == Outcome(State([B], map[]), [Emit(B, WaitingForPartner)])
  {
  }

  /** A and B are paired and A sends 'next-partner': B is told
      'partner-disconnected' and is left neither paired nor queued; A is not
      re-matched by the server but told to send 'find-partner'. When it does
      while C waits, A is paired with C. */
  lemma NextPartnerScenario()
    ensures var s := State([C], map[A := B, B := A]);
      var r1 := NextPartnerStep(s, A);
      var r2 := FindPartnerStep(r1.state, A, {A, B, C});
      && r1 == Outcome(State([C], map[]), [Emit(B, PartnerDisconnected), Emit(A, FindPartner)])
      && r2 == Outcome(State([], map[A := C, C := A]),
                       [Emit(A, PartnerFound(C)), Emit(C, PartnerFound(C))])
  {
  }

  /** A and B are paired and B disconnects: A is told 'partner-disconnected'
      and B is gone from both structures; a second 'disconnect' for B changes nothing. */
  lemma DisconnectScenario()
    ensures var s := State([C], map[A := B, B := A]);
      var r1 := DisconnectStep(s, B);
      var r2 := DisconnectStep(r1.state, B);
      && r1 == Outcome(State([C], map[]), [Emit(A, PartnerDisconnected)])
      && r2 == Outcome(State([C], map[]), [])
  {
  }

  /** The first two joins of ThreeJoins, run on a server object through the
      handler methods' contracts alone. */
  method ServerThreeJoins() returns (sent: seq<Emit>)
    ensures sent == [Emit(B, PartnerFound(A)), Emit(A, PartnerFound(A))]
  {
    var server := new Server.ChatServer();
    ThreeJoins();
    var first := server.OnFindPartner(A, {A, B, C});
    sent := server.OnFindPartner(B, {A, B, C});
  }
}
