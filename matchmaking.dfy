/**
 The state-changing handlers of the server (find-partner, next-partner,
 disconnect) as functions from the state before the event to the state after
 it and the emits it made, and the properties they have.
 */
module Matchmaking {
  import opened Protocol

  // ---------------------------------------------------------------------------
  // The queue filter

  /** `q.filter(id => id !== x)`: every occurrence of `x` removed, the rest in order. */
  function Without(q: seq<Id>, x: Id): (r: seq<Id>)
    ensures forall y :: y in r <==> y in q && y != x
    ensures |r| <= |q|
  {
    if q == [] then []
    else if q[0] == x then Without(q[1..], x)
    else [q[0]] + Without(q[1..], x)
  }

  /** Filtering out an id that is not queued leaves the queue as it was. */
  lemma {:induction false} WithoutAbsent(q: seq<Id>, x: Id)
    requires x !in q
    ensures Without(q, x) == q
  {
    if q != [] {
      WithoutAbsent(q[1..], x);
    }
  }

  /** Filtering keeps a queue free of duplicates. */
  lemma {:induction false} WithoutNoDuplicates(q: seq<Id>, x: Id)
    requires NoDuplicates(q)
    ensures NoDuplicates(Without(q, x))
  {
    if q != [] {
      assert NoDuplicates(q[1..]) by {
        forall i, j | 0 <= i < j < |q[1..]| ensures q[1..][i] != q[1..][j] {
          assert q[1..][i] == q[i + 1] && q[1..][j] == q[j + 1];
        }
      }
      WithoutNoDuplicates(q[1..], x);
      assert q[0] !in q[1..] by {
        forall k | 0 <= k < |q[1..]| ensures q[1..][k] != q[0] {
          assert q[1..][k] == q[k + 1];
        }
      }
    }
  }

  /** In a queue without duplicates, filtering removes the one occurrence and keeps the order of the rest. */
  lemma {:induction false} WithoutRemovesOne(q: seq<Id>, x: Id, k: nat)
    requires NoDuplicates(q) && k < |q| && q[k] == x
    ensures Without(q, x) == q[..k] + q[k + 1..]
  {
    if k == 0 {
      assert x !in q[1..] by {
        forall m | 0 <= m < |q[1..]| ensures q[1..][m] != x {
          assert q[1..][m] == q[m + 1];
        }
      }
      WithoutAbsent(q[1..], x);
      assert q[..0] + q[1..] == q[1..];
    } else {
      assert NoDuplicates(q[1..]) by {
        forall i, j | 0 <= i < j < |q[1..]| ensures q[1..][i] != q[1..][j] {
          assert q[1..][i] == q[i + 1] && q[1..][j] == q[j + 1];
        }
      }
      WithoutRemovesOne(q[1..], x, k - 1);
      assert q[0] != x;
      assert q[..k] + q[k + 1..] == [q[0]] + (q[1..][..k - 1] + q[1..][k..]);
    }
  }

  /** The head of the filtered queue is the longest-waiting id other than `x`:
      everything queued before it is `x` itself. */
  lemma {:induction false} WithoutHead(q: seq<Id>, x: Id) returns (k: nat)
    requires Without(q, x) != []
    ensures k < |q| && q[k] == Without(q, x)[0] && q[k] != x
    ensures forall j :: 0 <= j < k ==> q[j] == x
    ensures Without(q, x)[1..] == Without(q[k + 1..], x)
  {
    if q[0] == x {
      var k' := WithoutHead(q[1..], x);
      k := k' + 1;
      assert q[k + 1..] == q[1..][k' + 1..];
    } else {
      k := 0;
    }
  }

  /** When everything queued is `x`, the filtered queue is empty. */
  lemma {:induction false} WithoutOnlySelf(q: seq<Id>, x: Id)
    requires forall j :: 0 <= j < |q| ==> q[j] == x
    ensures Without(q, x) == []
  {
    if q != [] {
      WithoutOnlySelf(q[1..], x);
    }
  }

  // ---------------------------------------------------------------------------
  // The handlers

  /** The "remove from any existing pair" step: if `id` has a partner, both
      entries go and the partner is sent 'partner-disconnected'. */
  function TearDown(s: State, id: Id): (r: Outcome)
    ensures r.state.waiting == s.waiting
    ensures id !in r.state.pairs
    ensures id in s.pairs ==>
              s.pairs[id] !in r.state.pairs && r.sent == [Emit(s.pairs[id], PartnerDisconnected)]
    ensures id !in s.pairs ==> r == Outcome(s, [])
    ensures forall a :: a in r.state.pairs <==>
              a in s.pairs && a != id && (id in s.pairs ==> a != s.pairs[id])
    ensures forall a :: a in r.state.pairs ==> r.state.pairs[a] == s.pairs[a]
  {
    if id in s.pairs then
      var partnerId := s.pairs[id];
      Outcome(State(s.waiting, s.pairs - {id} - {partnerId}), [Emit(partnerId, PartnerDisconnected)])
    else
      Outcome(s, [])
  }

  /** The 'find-partner' handler. `live` holds the ids whose sockets are still
      registered and connected. */
  function FindPartnerStep(s: State, caller: Id, live: set<Id>): (r: Outcome)
    ensures (caller in r.state.pairs) != (caller in r.state.waiting)
    ensures caller in r.state.pairs ==> r.state.pairs[caller] in live && r.state.pairs[caller] in s.waiting
    ensures |r.state.waiting| <= if |s.waiting| <= 1 then 1 else |s.waiting|
  {
    var t := TearDown(s, caller);
    var queue := Without(t.state.waiting, caller);
    if |queue| > 0 then
      var partnerId := queue[0];
      assert caller !in queue && queue == [partnerId] + queue[1..];
      if partnerId in live then
        Outcome(State(queue[1..], t.state.pairs[caller := partnerId][partnerId := caller]),
                t.sent + [Emit(caller, PartnerFound(partnerId)), Emit(partnerId, PartnerFound(partnerId))])
      else
        Outcome(State(queue[1..] + [caller], t.state.pairs), t.sent + [Emit(caller, WaitingForPartner)])
    else
      Outcome(State(queue + [caller], t.state.pairs), t.sent + [Emit(caller, WaitingForPartner)])
  }

  /** The 'next-partner' handler: tear down, leave the queue, and (after a
      timer) tell the client to send 'find-partner' itself. */
  function NextPartnerStep(s: State, caller: Id): (r: Outcome)
    ensures caller !in r.state.pairs && caller !in r.state.waiting
    ensures r.state.pairs.Keys <= s.pairs.Keys && |r.state.waiting| <= |s.waiting|
    ensures r.sent != [] && r.sent[|r.sent| - 1] == Emit(caller, FindPartner)
  {
    var t := TearDown(s, caller);
    Outcome(State(Without(t.state.waiting, caller), t.state.pairs), t.sent + [Emit(caller, FindPartner)])
  }

  /** The 'disconnect' handler: tear down and leave the queue. */
  function DisconnectStep(s: State, caller: Id): (r: Outcome)
    ensures caller !in r.state.pairs && caller !in r.state.waiting
    ensures r.state.pairs.Keys <= s.pairs.Keys && |r.state.waiting| <= |s.waiting|
    ensures |r.sent| <= 1
  {
    var t := TearDown(s, caller);
    Outcome(State(Without(t.state.waiting, caller), t.state.pairs), t.sent)
  }

  // ---------------------------------------------------------------------------
  // The invariant is preserved

  lemma TearDownInvariant(s: State, id: Id)
    requires Invariant(s)
    ensures Invariant(TearDown(s, id).state)
  {
  }

  /** Filtering `x` out of a valid state's queue keeps it valid and removes `x`. */
  lemma LeaveQueueInvariant(s: State, x: Id)
    requires Invariant(s)
    ensures Invariant(State(Without(s.waiting, x), s.pairs))
  {
    WithoutNoDuplicates(s.waiting, x);
  }

  lemma FindPartnerPreservesInvariant(s: State, caller: Id, live: set<Id>)
    requires Invariant(s)
    ensures Invariant(FindPartnerStep(s, caller, live).state)
  {
    var t := TearDown(s, caller);
    TearDownInvariant(s, caller);
    var queue := Without(t.state.waiting, caller);
    LeaveQueueInvariant(t.state, caller);
    var u := State(queue, t.state.pairs);
    if |queue| > 0 {
      var h := queue[0];
      assert h !in queue[1..] by {
        forall k | 0 <= k < |queue[1..]| ensures queue[1..][k] != h {
          assert queue[1..][k] == queue[k + 1];
        }
      }
      assert NoDuplicates(queue[1..]) by {
        forall i, j | 0 <= i < j < |queue[1..]| ensures queue[1..][i] != queue[1..][j] {
          assert queue[1..][i] == queue[i + 1] && queue[1..][j] == queue[j + 1];
        }
      }
      if h in live {
        assert h in queue && h != caller;
        forall a | a in queue[1..] ensures a in queue && a != h && a != caller {
        }
      } else {
        var w := queue[1..] + [caller];
        assert NoDuplicates(w) by {
          forall i, j | 0 <= i < j < |w| ensures w[i] != w[j] {
            assert w[i] == queue[1..][i] && w[i] in queue;
            if j < |w| - 1 {
              assert w[j] == queue[1..][j];
            }
          }
        }
      }
    }
  }

  lemma NextPartnerPreservesInvariant(s: State, caller: Id)
    requires Invariant(s)
    ensures Invariant(NextPartnerStep(s, caller).state)
  {
    TearDownInvariant(s, caller);
    LeaveQueueInvariant(TearDown(s, caller).state, caller);
  }

  lemma DisconnectPreservesInvariant(s: State, caller: Id)
    requires Invariant(s)
    ensures Invariant(DisconnectStep(s, caller).state)
  {
    TearDownInvariant(s, caller);
    LeaveQueueInvariant(TearDown(s, caller).state, caller);
  }

  // ---------------------------------------------------------------------------
  // What find-partner does

  /** FIFO matching: the caller is paired with the longest-waiting queued id
      other than itself, when that id is live; both are told 'partner-found',
      both leave the queue, and the rest of the queue keeps its order. */
  lemma FindPartnerMatchesLongestWaiting(s: State, caller: Id, live: set<Id>, k: nat)
    requires Invariant(s)
    requires k < |s.waiting| && s.waiting[k] != caller
    requires forall j :: 0 <= j < k ==> s.waiting[j] == caller
    requires s.waiting[k] in live
    ensures var r := FindPartnerStep(s, caller, live); var h := s.waiting[k];
      && Paired(r.state.pairs, caller, h) && Paired(r.state.pairs, h, caller)
      && r.state.waiting == Without(s.waiting[k + 1..], caller)
      && caller !in r.state.waiting && h !in r.state.waiting
      && r.sent == TearDown(s, caller).sent + [Emit(caller, PartnerFound(h)), Emit(h, PartnerFound(h))]
      && (forall a :: a in r.state.pairs && a != caller && a != h ==>
            a in s.pairs && r.state.pairs[a] == s.pairs[a])
  {
    var k' := WithoutHead(s.waiting, caller);
    assert k' == k;
    var r := FindPartnerStep(s, caller, live);
    FindPartnerPreservesInvariant(s, caller, live);
    assert s.waiting[k] in r.state.pairs;
  }

  /** A stale head is dropped, not retried: it leaves the queue without being
      paired or sent anything, no pair is made, and the caller joins the tail
      and is told 'waiting-for-partner'. */
  lemma FindPartnerDropsStaleHead(s: State, caller: Id, live: set<Id>, k: nat)
    requires Invariant(s)
    requires k < |s.waiting| && s.waiting[k] != caller
    requires forall j :: 0 <= j < k ==> s.waiting[j] == caller
    requires s.waiting[k] !in live
    ensures var r := FindPartnerStep(s, caller, live); var h := s.waiting[k];
      && h !in r.state.waiting && h !in r.state.pairs && caller !in r.state.pairs
      && r.state.waiting == Without(s.waiting[k + 1..], caller) + [caller]
      && r.sent == TearDown(s, caller).sent + [Emit(caller, WaitingForPartner)]
      && (forall a :: a in r.state.pairs ==> a in s.pairs && r.state.pairs[a] == s.pairs[a])
  {
    var k' := WithoutHead(s.waiting, caller);
    assert k' == k;
    var r := FindPartnerStep(s, caller, live);
    FindPartnerPreservesInvariant(s, caller, live);
    assert s.waiting[k] in s.waiting;
  }

  /** With nobody else waiting, the caller becomes the whole queue and is told
      'waiting-for-partner'; no pair is made. */
  lemma FindPartnerWaitsAlone(s: State, caller: Id, live: set<Id>)
    requires forall j :: 0 <= j < |s.waiting| ==> s.waiting[j] == caller
    ensures var r := FindPartnerStep(s, caller, live);
      && r.state.waiting == [caller] && caller !in r.state.pairs
      && r.sent == TearDown(s, caller).sent + [Emit(caller, WaitingForPartner)]
      && (forall a :: a in r.state.pairs ==> a in s.pairs && r.state.pairs[a] == s.pairs[a])
  {
    WithoutOnlySelf(s.waiting, caller);
  }

  /** A caller that was paired abandons its partner: the partner is told
      'partner-disconnected' first and is left neither paired nor queued. */
  lemma FindPartnerAbandonsPartner(s: State, caller: Id, live: set<Id>)
    requires Invariant(s)
    requires caller in s.pairs
    ensures var r := FindPartnerStep(s, caller, live); var p := s.pairs[caller];
      && p !in r.state.pairs && p !in r.state.waiting
      && r.sent[0] == Emit(p, PartnerDisconnected)
  {
  }

  /** Only the caller, its former partner and the matched head get an emit,
      and a pair that does not involve the caller is left as it was. */
  lemma FindPartnerIsLocal(s: State, caller: Id, live: set<Id>)
    requires Invariant(s)
    ensures var r := FindPartnerStep(s, caller, live);
      && (forall e :: e in r.sent ==>
            e.target == caller
            || (caller in s.pairs && e.target == s.pairs[caller])
            || (Without(s.waiting, caller) != [] && e.target == Without(s.waiting, caller)[0]))
      && (forall a :: a in s.pairs && a != caller && s.pairs[a] != caller ==>
            a in r.state.pairs && r.state.pairs[a] == s.pairs[a])
  {
    var queue := Without(TearDown(s, caller).state.waiting, caller);
    if |queue| > 0 {
      assert queue[0] in s.waiting && queue[0] !in s.pairs;
    }
  }

  // ---------------------------------------------------------------------------
  // What next-partner and disconnect do

  /** After 'next-partner' the caller is unpaired and unqueued; its former
      partner is unpaired, unqueued and told 'partner-disconnected'; the queue
      only loses the caller; the caller is told to send 'find-partner' again;
      nobody is re-matched; every other pair is kept. */
  lemma NextPartnerOutcome(s: State, caller: Id)
    requires Invariant(s)
    ensures var r := NextPartnerStep(s, caller);
      && caller !in r.state.pairs && caller !in r.state.waiting
      && r.state.waiting == Without(s.waiting, caller)
      && (caller in s.pairs ==>
            var p := s.pairs[caller];
            p !in r.state.pairs && p !in r.state.waiting
            && r.sent == [Emit(p, PartnerDisconnected), Emit(caller, FindPartner)])
      && (caller !in s.pairs ==> r.sent == [Emit(caller, FindPartner)] && r.state.pairs == s.pairs)
      && (forall a :: a in r.state.pairs ==> a in s.pairs && r.state.pairs[a] == s.pairs[a])
      && (forall a :: a in s.pairs && a != caller && s.pairs[a] != caller ==>
            a in r.state.pairs && r.state.pairs[a] == s.pairs[a])
  {
  }

  /** After 'disconnect' the id is in neither structure; its former partner is
      unpaired, unqueued and the only one notified; every other pair is kept
      and none is added. */
  lemma DisconnectOutcome(s: State, caller: Id)
    requires Invariant(s)
    ensures var r := DisconnectStep(s, caller);
      && caller !in r.state.pairs && caller !in r.state.waiting
      && r.state.waiting == Without(s.waiting, caller)
      && (caller in s.pairs ==>
            var p := s.pairs[caller];
            p !in r.state.pairs && p !in r.state.waiting
            && r.sent == [Emit(p, PartnerDisconnected)])
      && (caller !in s.pairs ==> r.sent == [] && r.state.pairs == s.pairs)
      && (forall a :: a in s.pairs && a != caller && s.pairs[a] != caller ==>
            a in r.state.pairs && r.state.pairs[a] == s.pairs[a])
      && (forall a :: a in r.state.pairs ==> a in s.pairs && r.state.pairs[a] == s.pairs[a])
  {
  }

  /** A second 'disconnect' for the same id changes nothing and emits nothing. */
  lemma DisconnectIdempotent(s: State, caller: Id)
    ensures var r := DisconnectStep(s, caller);
      DisconnectStep(r.state, caller) == Outcome(r.state, [])
  {
    var r := DisconnectStep(s, caller);
    WithoutAbsent(r.state.waiting, caller);
  }

  /** In a queue without duplicates, leaving the queue removes exactly the
      one entry of the caller (if any) and keeps everyone else in order. */
  lemma LeaveQueueKeepsOrder(s: State, caller: Id, k: nat)
    requires Invariant(s)
    requires k < |s.waiting| && s.waiting[k] == caller
    ensures DisconnectStep(s, caller).state.waiting == s.waiting[..k] + s.waiting[k + 1..]
    ensures NextPartnerStep(s, caller).state.waiting == s.waiting[..k] + s.waiting[k + 1..]
  {
    WithoutRemovesOne(s.waiting, caller, k);
  }

  // ---------------------------------------------------------------------------
  // Runs of events

  /** A state-changing socket event. The relay events read the state only and
      are left out of runs. */
  datatype Request =
    | FindPartnerRequest(caller: Id, live: set<Id>)
    | NextPartnerRequest(caller: Id)
    | DisconnectRequest(caller: Id)

  function Apply(s: State, req: Request): (r: Outcome)
    ensures |r.state.waiting| <= if |s.waiting| <= 1 then 1 else |s.waiting|
  {
    match req
    case FindPartnerRequest(caller, live) => FindPartnerStep(s, caller, live)
    case NextPartnerRequest(caller) => NextPartnerStep(s, caller)
    case DisconnectRequest(caller) => DisconnectStep(s, caller)
  }

  /** The state after the events of `reqs`, handled one at a time in order. */
  function Run(s: State, reqs: seq<Request>): (r: State)
    ensures |s.waiting| <= 1 ==> |r.waiting| <= 1
    decreases |reqs|
  {
    if reqs == [] then s else Run(Apply(s, reqs[0]).state, reqs[1..])
  }

  /** Every handler keeps the invariant, and none lets the queue grow past one
      entry: find-partner pushes the caller only after it emptied the queue
      or dropped its head. */
  lemma ApplyPreservesInvariant(s: State, req: Request)
    requires Invariant(s) && |s.waiting| <= 1
    ensures Invariant(Apply(s, req).state) && |Apply(s, req).state.waiting| <= 1
  {
    match req
    case FindPartnerRequest(caller, live) => FindPartnerPreservesInvariant(s, caller, live);
    case NextPartnerRequest(caller) => NextPartnerPreservesInvariant(s, caller);
    case DisconnectRequest(caller) => DisconnectPreservesInvariant(s, caller);
  }

  lemma {:induction false} RunPreservesInvariant(s: State, reqs: seq<Request>)
    requires Invariant(s) && |s.waiting| <= 1
    ensures Invariant(Run(s, reqs)) && |Run(s, reqs).waiting| <= 1
    decreases |reqs|
  {
    if reqs != [] {
      ApplyPreservesInvariant(s, reqs[0]);
      RunPreservesInvariant(Apply(s, reqs[0]).state, reqs[1..]);
    }
  }

  /** For every sequence of find-partner, next-partner and disconnect events
      from the empty server, pairs stay symmetric, nobody is paired with
      itself, nobody is both waiting and paired, and at most one id waits. */
  lemma ReachableStatesAreValid(reqs: seq<Request>)
    ensures Invariant(Run(Initial, reqs)) && |Run(Initial, reqs).waiting| <= 1
  {
    InitialInvariant();
    RunPreservesInvariant(Initial, reqs);
  }
}
