/**
 The server's connection handlers. One `ChatServer` object holds the shared
 `waitingUsers` queue and `activePairs` map; each socket event runs to
 completion as one method call, returning the emits it made in order.
 */
module Server {
  import opened Protocol
  import Matchmaking

  class ChatServer {
    var waitingUsers: seq<Id>
    var activePairs: map<Id, Id>

    /** The abstract state the handlers are specified against. */
    ghost function Current(): State
      reads this
    {
      State(waitingUsers, activePairs)
    }

    ghost predicate Valid()
      reads this
    {
      Invariant(Current())
    }

    constructor ()
      ensures Valid()
      ensures Current() == Initial
    {
      waitingUsers := [];
      activePairs := map[];
    }

    /** 'find-partner' from `caller`. `live` holds the ids whose sockets are
        still registered and connected. */
    method OnFindPartner(caller: Id, live: set<Id>) returns (sent: seq<Emit>)
      requires Valid()
      modifies this
      ensures Valid()
      ensures Outcome(Current(), sent) == Matchmaking.FindPartnerStep(old(Current()), caller, live)
    {
      ghost var before := Current();
      sent := [];
      if caller in activePairs {
        var partnerId := activePairs[caller];
        activePairs := activePairs - {caller};
        activePairs := activePairs - {partnerId};
        sent := sent + [Emit(partnerId, PartnerDisconnected)];
      }

      waitingUsers := Matchmaking.Without(waitingUsers, caller);

      if |waitingUsers| > 0 {
        var partnerId := waitingUsers[0];
        waitingUsers := waitingUsers[1..];
        if partnerId in live {
          activePairs := activePairs[caller := partnerId];
          activePairs := activePairs[partnerId := caller];
          sent := sent + [Emit(caller, PartnerFound(partnerId))];
          sent := sent + [Emit(partnerId, PartnerFound(partnerId))];
        } else {
          waitingUsers := waitingUsers + [caller];
          sent := sent + [Emit(caller, WaitingForPartner)];
        }
      } else {
        waitingUsers := waitingUsers + [caller];
        sent := sent + [Emit(caller, WaitingForPartner)];
      }
      Matchmaking.FindPartnerPreservesInvariant(before, caller, live);
    }

    /** 'send-message': forwarded to the partner as 'receive-message' with
        `isOwn` false; dropped when the sender has no partner. */
    method OnSendMessage(sender: Id, message: Payload) returns (sent: seq<Emit>)
      ensures sender in activePairs ==>
                sent == [Emit(activePairs[sender], ReceiveMessage(message, false))]
      ensures sender !in activePairs ==> sent == []
      ensures Valid() && sender in activePairs ==>
                activePairs[sender] != sender && Paired(activePairs, activePairs[sender], sender)
    {
      sent := [];
      if sender in activePairs {
        var partnerId := activePairs[sender];
        sent := [Emit(partnerId, ReceiveMessage(message, false))];
      }
    }

    /** 'webrtc-offer': forwarded to the partner with `from` set to the
        sender's own id; dropped when the sender has no partner. */
    method OnWebrtcOffer(sender: Id, offer: Payload) returns (sent: seq<Emit>)
      ensures sender in activePairs ==>
                sent == [Emit(activePairs[sender], WebrtcOffer(offer, sender))]
      ensures sender !in activePairs ==> sent == []
      ensures Valid() && sender in activePairs ==>
                activePairs[sender] != sender && Paired(activePairs, activePairs[sender], sender)
    {
      sent := [];
      if sender in activePairs {
        var partnerId := activePairs[sender];
        sent := [Emit(partnerId, WebrtcOffer(offer, sender))];
      }
    }

    /** 'webrtc-answer': as 'webrtc-offer'. */
    method OnWebrtcAnswer(sender: Id, answer: Payload) returns (sent: seq<Emit>)
      ensures sender in activePairs ==>
                sent == [Emit(activePairs[sender], WebrtcAnswer(answer, sender))]
      ensures sender !in activePairs ==> sent == []
      ensures Valid() && sender in activePairs ==>
                activePairs[sender] != sender && Paired(activePairs, activePairs[sender], sender)
    {
      sent := [];
      if sender in activePairs {
        var partnerId := activePairs[sender];
        sent := [Emit(partnerId, WebrtcAnswer(answer, sender))];
      }
    }

    /** 'webrtc-ice-candidate': as 'webrtc-offer'. */
    method OnWebrtcIceCandidate(sender: Id, candidate: Payload) returns (sent: seq<Emit>)
      ensures sender in activePairs ==>
                sent == [Emit(activePairs[sender], WebrtcIceCandidate(candidate, sender))]
      ensures sender !in activePairs ==> sent == []
      ensures Valid() && sender in activePairs ==>
                activePairs[sender] != sender && Paired(activePairs, activePairs[sender], sender)
    {
      sent := [];
      if sender in activePairs {
        var partnerId := activePairs[sender];
        sent := [Emit(partnerId, WebrtcIceCandidate(candidate, sender))];
      }
    }

    /** 'next-partner': tear down the pair, leave the queue, and (after a one
        second timer) emit 'find-partner' back to the caller. */
    method OnNextPartner(caller: Id) returns (sent: seq<Emit>)
      requires Valid()
      modifies this
      ensures Valid()
      ensures Outcome(Current(), sent) == Matchmaking.NextPartnerStep(old(Current()), caller)
    {
      ghost var before := Current();
      sent := [];
      if caller in activePairs {
        var partnerId := activePairs[caller];
        sent := sent + [Emit(partnerId, PartnerDisconnected)];
        activePairs := activePairs - {caller};
        activePairs := activePairs - {partnerId};
      }

      waitingUsers := Matchmaking.Without(waitingUsers, caller);

      sent := sent + [Emit(caller, FindPartner)];
      Matchmaking.NextPartnerPreservesInvariant(before, caller);
    }

    /** 'disconnect': tear down the pair and leave the queue. */
    method OnDisconnect(caller: Id) returns (sent: seq<Emit>)
      requires Valid()
      modifies this
      ensures Valid()
      ensures Outcome(Current(), sent) == Matchmaking.DisconnectStep(old(Current()), caller)
    {
      ghost var before := Current();
      sent := [];
      if caller in activePairs {
        var partnerId := activePairs[caller];
        sent := sent + [Emit(partnerId, PartnerDisconnected)];
        activePairs := activePairs - {caller};
        activePairs := activePairs - {partnerId};
      }

      waitingUsers := Matchmaking.Without(waitingUsers, caller);
      Matchmaking.DisconnectPreservesInvariant(before, caller);
    }
  }
}
