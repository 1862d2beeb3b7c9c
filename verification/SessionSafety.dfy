/** Every secret nonce is used at most once, in every interleaving, and none is lost. */
module SessionSafety {
  import opened ByteStrings
  import opened Outcomes
  import opened Approval
  import opened Sessions

  // ------------------------------------------------------------ reading a log

  /** The nonces an event takes out of the map. */
  function Consumes(e: Event): (nonces: set<Nonce>)
  {
    match e
    case Pruned(nonces) => nonces
    case TakenByFinish(nonce) => {nonce}
    case TakenByCancel(nonce) => {nonce}
    case _ => {}
  }

  function Consumed(log: seq<Event>): (nonces: set<Nonce>)
  {
    if log == [] then {} else Consumed(log[..|log| - 1]) + Consumes(log[|log| - 1])
  }

  /** No event consumes a nonce that an earlier one consumed. */
  ghost predicate OnceEach(log: seq<Event>)
  {
    log == [] || (OnceEach(log[..|log| - 1]) && Consumes(log[|log| - 1]) !! Consumed(log[..|log| - 1]))
  }

  /** How many nonces the log says went each way. */
  function CountFinished(log: seq<Event>): (n: nat)
  {
    if log == [] then 0 else CountFinished(log[..|log| - 1]) + (if log[|log| - 1].TakenByFinish? then 1 else 0)
  }

  function CountCancelled(log: seq<Event>): (n: nat)
  {
    if log == [] then 0 else CountCancelled(log[..|log| - 1]) + (if log[|log| - 1].TakenByCancel? then 1 else 0)
  }

  function CountPruned(log: seq<Event>): (n: nat)
  {
    if log == [] then 0
    else CountPruned(log[..|log| - 1]) + (if log[|log| - 1].Pruned? then |log[|log| - 1].nonces| else 0)
  }

  lemma LogGrows(log: seq<Event>, e: Event)
    ensures Consumed(log + [e]) == Consumed(log) + Consumes(e)
    ensures OnceEach(log + [e]) <==> OnceEach(log) && Consumes(e) !! Consumed(log)
  {
    assert (log + [e])[..|log|] == log;
  }

  // ------------------------------------------------------------ the invariant

  ghost predicate Injective(pending: map<SessionId, Pending>)
  {
    forall a, b :: a in pending && b in pending && pending[a].nonce == pending[b].nonce ==> a == b
  }

  /** The serial numbers handed out so far. */
  function Upto(created: nat): (nonces: set<Nonce>)
    ensures forall n: nat :: n in nonces <==> n < created
    ensures |nonces| == created
  {
    if created == 0 then {} else Upto(created - 1) + {created - 1}
  }

  /** Pending and consumed nonces partition the created ones, and consumption is once only. */
  ghost predicate NoncesOnce(s: State)
  {
    && Injective(s.pending)
    && NoncesOf(s.pending) !! Consumed(s.log)
    && NoncesOf(s.pending) + Consumed(s.log) == Upto(s.created)
    && OnceEach(s.log)
  }

  lemma RemovalTakesOneNonce(pending: map<SessionId, Pending>, id: SessionId)
    requires Injective(pending) && id in pending
    ensures Injective(pending - {id})
    ensures NoncesOf(pending - {id}) == NoncesOf(pending) - {pending[id].nonce}
  {
    var less := pending - {id};
    forall n | n in NoncesOf(pending) - {pending[id].nonce} ensures n in NoncesOf(less) {
      var other :| other in pending && pending[other].nonce == n;
      assert other in less;
    }
  }

  lemma PruningKeepsInjective(pending: map<SessionId, Pending>, now: nat)
    requires Injective(pending)
    ensures Injective(Unexpired(pending, now))
    ensures NoncesOf(Unexpired(pending, now)) <= NoncesOf(pending)
  {}

  lemma InsertionAddsOneNonce(live: map<SessionId, Pending>, id: SessionId, p: Pending)
    requires Injective(live) && id !in live && p.nonce !in NoncesOf(live)
    ensures Injective(live[id := p])
    ensures NoncesOf(live[id := p]) == NoncesOf(live) + {p.nonce}
  {
    var more := live[id := p];
    forall n | n in NoncesOf(live) + {p.nonce} ensures n in NoncesOf(more) {
      if n == p.nonce {
        assert more[id].nonce == n;
      } else {
        var other :| other in live && live[other].nonce == n;
        assert more[other].nonce == n;
      }
    }
    forall n | n in NoncesOf(more) ensures n in NoncesOf(live) + {p.nonce} {
      var other :| other in more && more[other].nonce == n;
      assert other == id || other in live;
    }
  }

  lemma UptoGrows(created: nat)
    ensures created !in Upto(created) && Upto(created + 1) == Upto(created) + {created}
  {}

  lemma PruneKeepsNonces(s: State, t: State, now: nat)
    requires NoncesOnce(s)
    requires t.pending == Unexpired(s.pending, now) && t.created == s.created
    requires t.log == s.log + [Pruned(NoncesOf(s.pending) - NoncesOf(t.pending))]
    ensures NoncesOnce(t)
  {
    hide Injective, NoncesOf, Unexpired, Consumed, OnceEach, Upto;
    PruningKeepsInjective(s.pending, now);
    LogGrows(s.log, Pruned(NoncesOf(s.pending) - NoncesOf(t.pending)));
  }

  lemma AdmitKeepsNonces(s: State, t: State, id: SessionId, p: Pending, request: PrepareRequest)
    requires NoncesOnce(s) && id !in s.pending && p.nonce == s.created
    requires t.pending == s.pending[id := p] && t.created == s.created + 1
    requires t.log == s.log + [Admitted(id, p, request)]
    ensures NoncesOnce(t)
  {
    hide Injective, NoncesOf, Consumed, OnceEach, Upto;
    UptoGrows(s.created);
    InsertionAddsOneNonce(s.pending, id, p);
    LogGrows(s.log, Admitted(id, p, request));
  }

  lemma ReserveKeepsNonces(s: State, call: CallId, id: SessionId, nonceDrawn: bool)
    requires NoncesOnce(s) && call in s.calls && s.calls[call].Timed?
    ensures NoncesOnce(ReserveStep(s, call, id, nonceDrawn))
  {
    hide HasRoom, NoncesOf, Unexpired, NoncesOnce;
    var Timed(request, approved, now) := s.calls[call];
    var live := Unexpired(s.pending, now);
    var rest := s.(pending := live, calls := s.calls - {call},
                   log := s.log + [Pruned(NoncesOf(s.pending) - NoncesOf(live))]);
    PruneKeepsNonces(s, rest, now);
    var t := ReserveStep(s, call, id, nonceDrawn);
    if t != rest && t != s {
      AdmitKeepsNonces(rest, t, id, NewSession(approved, s.created, now), request);
    }
  }

  lemma TakeKeepsNonces(s: State, call: CallId, request: FinishRequest)
    requires NoncesOnce(s)
    ensures NoncesOnce(TakeStep(s, call, request))
  {
    hide Injective, Consumed, OnceEach;
    if request.session in s.pending {
      RemovalTakesOneNonce(s.pending, request.session);
      LogGrows(s.log, TakenByFinish(s.pending[request.session].nonce));
    }
  }

  lemma CancelKeepsNonces(s: State, request: CancelRequest)
    requires NoncesOnce(s)
    ensures NoncesOnce(CancelStep(s, request))
  {
    hide Injective, Consumed, OnceEach;
    if request.session in s.pending {
      RemovalTakesOneNonce(s.pending, request.session);
      LogGrows(s.log, TakenByCancel(s.pending[request.session].nonce));
    }
  }

  lemma SignKeepsNonces(w: World, s: State, call: CallId)
    requires NoncesOnce(s) && call in s.calls && s.calls[call].Taken?
    ensures NoncesOnce(SignStep(w, s, call))
  {
    hide Injective, Consumed, OnceEach, NoncesOf, FinishPartial;
    var Taken(p, request) := s.calls[call];
    var partial := FinishPartial(w, p, request, s.clock);
    if partial.Some? {
      LogGrows(s.log, Released(p, request, s.clock, partial.value));
    }
  }

  lemma StepKeepsNonces(w: World, s: State, step: Step)
    requires NoncesOnce(s)
    ensures NoncesOnce(Apply(w, s, step))
  {
    hide Injective, Consumed, OnceEach, NoncesOf, ReserveStep, TakeStep, SignStep, CancelStep, Approve;
    match step
    case Reserve(call, id, nonceDrawn) =>
      if call in s.calls && s.calls[call].Timed? { ReserveKeepsNonces(s, call, id, nonceDrawn); }
    case Take(call, finish) => TakeKeepsNonces(s, call, finish);
    case Sign(call) => if call in s.calls && s.calls[call].Taken? { SignKeepsNonces(w, s, call); }
    case Cancel(cancel) => CancelKeepsNonces(s, cancel);
    case _ =>
  }

  lemma {:induction false} RunKeepsNonces(w: World, clock: nat, steps: seq<Step>)
    ensures NoncesOnce(Run(w, Initial(clock), steps))
  {
    hide Apply;
    if steps != [] {
      RunKeepsNonces(w, clock, steps[..|steps| - 1]);
      StepKeepsNonces(w, Run(w, Initial(clock), steps[..|steps| - 1]), steps[|steps| - 1]);
    }
  }

  // ------------------------------------------------------- what follows from it

  lemma {:induction false} OnceEachMeans(log: seq<Event>, i: nat, j: nat, n: Nonce)
    requires OnceEach(log) && i < j < |log| && n in Consumes(log[i])
    ensures n !in Consumes(log[j])
  {
    var last := |log| - 1;
    if j == last {
      InConsumed(log[..last], i, n);
    } else {
      OnceEachMeans(log[..last], i, j, n);
    }
  }

  lemma {:induction false} InConsumed(log: seq<Event>, i: nat, n: Nonce)
    requires i < |log| && n in Consumes(log[i])
    ensures n in Consumed(log)
  {
    if i < |log| - 1 { InConsumed(log[..|log| - 1], i, n); }
  }

  lemma {:induction false} CountsAreConsumption(log: seq<Event>)
    requires OnceEach(log)
    ensures |Consumed(log)| == CountFinished(log) + CountCancelled(log) + CountPruned(log)
  {
    if log != [] { CountsAreConsumption(log[..|log| - 1]); }
  }

  lemma {:induction false} OneNoncePerSession(pending: map<SessionId, Pending>)
    requires Injective(pending)
    ensures |NoncesOf(pending)| == |pending|
    decreases |pending|
  {
    if pending.Keys != {} {
      var id :| id in pending;
      RemovalTakesOneNonce(pending, id);
      assert (pending - {id}).Keys == pending.Keys - {id};
      OneNoncePerSession(pending - {id});
      assert pending[id].nonce in NoncesOf(pending);
    }
  }

  /** In every run, two different events never consume one nonce. */
  lemma NonceConsumedAtMostOnce(w: World, clock: nat, steps: seq<Step>, i: nat, j: nat, n: Nonce)
    requires var log := Run(w, Initial(clock), steps).log;
      i < j < |log| && n in Consumes(log[i])
    ensures n !in Consumes(Run(w, Initial(clock), steps).log[j])
    ensures n !in NoncesOf(Run(w, Initial(clock), steps).pending)
  {
    RunKeepsNonces(w, clock, steps);
    var s := Run(w, Initial(clock), steps);
    OnceEachMeans(s.log, i, j, n);
    InConsumed(s.log, i, n);
  }

  /** In every run: inserted = pending + finished + cancelled + pruned. */
  lemma NoncesAreConserved(w: World, clock: nat, steps: seq<Step>)
    ensures var s := Run(w, Initial(clock), steps);
      s.created == |s.pending| + CountFinished(s.log) + CountCancelled(s.log) + CountPruned(s.log)
  {
    RunKeepsNonces(w, clock, steps);
    var s := Run(w, Initial(clock), steps);
    CountsAreConsumption(s.log);
    OneNoncePerSession(s.pending);
    assert |NoncesOf(s.pending) + Consumed(s.log)| == |NoncesOf(s.pending)| + |Consumed(s.log)|;
  }

  /** The log only grows, whatever happens next. */
  lemma StepExtendsLog(w: World, s: State, step: Step)
    ensures s.log <= Apply(w, s, step).log
  {
    hide Approve, FinishPartial, HasRoom, Unexpired, NoncesOf;
  }

  lemma {:induction false} RunExtendsLog(w: World, s: State, steps: seq<Step>)
    ensures s.log <= Run(w, s, steps).log
  {
    hide Apply;
    if steps != [] {
      RunExtendsLog(w, s, steps[..|steps| - 1]);
      StepExtendsLog(w, Run(w, s, steps[..|steps| - 1]), steps[|steps| - 1]);
    }
  }

  lemma {:induction false} RunsCompose(w: World, s: State, first: seq<Step>, more: seq<Step>)
    ensures Run(w, s, first + more) == Run(w, Run(w, s, first), more)
    decreases more
  {
    hide Apply;
    if more == [] {
      assert first + more == first;
    } else {
      var less := more[..|more| - 1];
      RunsCompose(w, s, first, less);
      assert (first + more)[..|first + more| - 1] == first + less;
    }
  }

  /** A nonce that has left the map never comes back, however the run continues. */
  lemma ConsumedNonceNeverReturns(w: World, clock: nat, steps: seq<Step>, more: seq<Step>, i: nat, n: Nonce)
    requires var log := Run(w, Initial(clock), steps).log;
      i < |log| && n in Consumes(log[i])
    ensures n !in NoncesOf(Run(w, Initial(clock), steps + more).pending)
  {
    hide Consumed, NoncesOf, Run, OnceEach, Injective;
    RunsCompose(w, Initial(clock), steps, more);
    RunExtendsLog(w, Run(w, Initial(clock), steps), more);
    RunKeepsNonces(w, clock, steps + more);
    InConsumed(Run(w, Initial(clock), steps + more).log, i, n);
  }
}
