/** Every released partial signature traces back to an approved request, and no nonce yields two. */
module SessionTrace {
  import opened ByteStrings
  import opened Outcomes
  import opened Transactions
  import opened Approval
  import opened Sessions
  import opened SessionSafety
  import opened Release

  // ------------------------------------------------------------ reading a log

  datatype Admission = Admission(pending: Pending, request: PrepareRequest)

  function Admissions(log: seq<Event>): (admissions: set<Admission>)
  {
    if log == [] then {} else
    var last := log[|log| - 1];
    Admissions(log[..|log| - 1]) + (if last.Admitted? then {Admission(last.pending, last.request)} else {})
  }

  function FinishNonces(log: seq<Event>): (nonces: set<Nonce>)
  {
    if log == [] then {} else
    var last := log[|log| - 1];
    FinishNonces(log[..|log| - 1]) + (if last.TakenByFinish? then {last.nonce} else {})
  }

  function ReleasedNonces(log: seq<Event>): (nonces: set<Nonce>)
  {
    if log == [] then {} else
    var last := log[|log| - 1];
    ReleasedNonces(log[..|log| - 1]) + (if last.Released? then {last.pending.nonce} else {})
  }

  /** Some admitted request was approved with exactly this intent, program and user nonce. */
  ghost predicate Traced(w: World, log: seq<Event>, p: Pending)
  {
    exists request ::
      Admission(p, request) in Admissions(log)
      && Approve(w.lib, w.signer, request) == Some(Approved(p.programId, p.intent, p.userNonce))
  }

  /** A release uses a taken, not yet released, traced session, and is what `finish` computes. */
  ghost predicate GoodRelease(w: World, log: seq<Event>, e: Event)
  {
    e.Released? ==>
      && e.pending.nonce in FinishNonces(log) && e.pending.nonce !in ReleasedNonces(log)
      && Traced(w, log, e.pending)
      && FinishPartial(w, e.pending, e.finish, e.at) == Some(e.partial)
  }

  ghost predicate GoodReleases(w: World, log: seq<Event>)
  {
    log == [] || (GoodReleases(w, log[..|log| - 1]) && GoodRelease(w, log[..|log| - 1], log[|log| - 1]))
  }

  lemma LogGrowsTraced(w: World, log: seq<Event>, e: Event)
    ensures Admissions(log + [e]) == Admissions(log) + (if e.Admitted? then {Admission(e.pending, e.request)} else {})
    ensures FinishNonces(log + [e]) == FinishNonces(log) + (if e.TakenByFinish? then {e.nonce} else {})
    ensures ReleasedNonces(log + [e]) == ReleasedNonces(log) + (if e.Released? then {e.pending.nonce} else {})
    ensures GoodReleases(w, log + [e]) <==> GoodReleases(w, log) && GoodRelease(w, log, e)
  {
    hide FinishPartial, Approve, GoodRelease;
    assert (log + [e])[..|log|] == log;
  }

  lemma TraceKept(w: World, log: seq<Event>, e: Event, p: Pending)
    requires Traced(w, log, p)
    ensures Traced(w, log + [e], p)
  {
    hide Admissions, Approve, FinishPartial, GoodReleases;
    LogGrowsTraced(w, log, e);
    var request :| Admission(p, request) in Admissions(log)
      && Approve(w.lib, w.signer, request) == Some(Approved(p.programId, p.intent, p.userNonce));
    assert Admission(p, request) in Admissions(log + [e]);
  }

  lemma {:induction false} FinishNoncesAreConsumed(log: seq<Event>)
    ensures FinishNonces(log) <= Consumed(log)
  {
    if log != [] { FinishNoncesAreConsumed(log[..|log| - 1]); }
  }

  // ------------------------------------------------------------ the invariant

  /** What a call between its steps holds. */
  ghost predicate GoodLocal(w: World, log: seq<Event>, local: Local)
  {
    match local
    case Validated(request, approved) => Approve(w.lib, w.signer, request) == Some(approved)
    case Timed(request, approved, _) => Approve(w.lib, w.signer, request) == Some(approved)
    case Taken(p, _) => p.nonce in FinishNonces(log) && p.nonce !in ReleasedNonces(log) && Traced(w, log, p)
  }

  predicate HoldSameNonce(a: Local, b: Local)
  {
    a.Taken? && b.Taken? && a.pending.nonce == b.pending.nonce
  }

  ghost predicate GoodCalls(w: World, log: seq<Event>, calls: map<CallId, Local>)
  {
    && (forall c :: c in calls ==> GoodLocal(w, log, calls[c]))
    && (forall a, b :: a in calls && b in calls && HoldSameNonce(calls[a], calls[b]) ==> a == b)
  }

  ghost predicate AllTraced(w: World, log: seq<Event>, pending: map<SessionId, Pending>)
  {
    forall id :: id in pending ==> Traced(w, log, pending[id])
  }

  ghost predicate TraceInvariant(w: World, s: State)
  {
    && NoncesOnce(s)
    && GoodReleases(w, s.log)
    && GoodCalls(w, s.log, s.calls)
    && AllTraced(w, s.log, s.pending)
  }

  /** Events other than a take or a release leave every local state good. */
  lemma QuietEvent(w: World, log: seq<Event>, e: Event, calls: map<CallId, Local>, pending: map<SessionId, Pending>)
    requires !e.TakenByFinish? && !e.Released?
    requires GoodReleases(w, log) && GoodCalls(w, log, calls) && AllTraced(w, log, pending)
    ensures GoodReleases(w, log + [e]) && GoodCalls(w, log + [e], calls) && AllTraced(w, log + [e], pending)
  {
    hide Admissions, FinishNonces, ReleasedNonces, GoodReleases, Traced, FinishPartial, Approve;
    LogGrowsTraced(w, log, e);
    forall c | c in calls ensures GoodLocal(w, log + [e], calls[c]) {
      if calls[c].Taken? { TraceKept(w, log, e, calls[c].pending); }
    }
    forall id | id in pending ensures Traced(w, log + [e], pending[id]) {
      TraceKept(w, log, e, pending[id]);
    }
  }

  lemma ReserveKeepsTrace(w: World, s: State, call: CallId, id: SessionId, nonceDrawn: bool)
    requires TraceInvariant(w, s) && call in s.calls && s.calls[call].Timed?
    ensures TraceInvariant(w, ReserveStep(s, call, id, nonceDrawn))
  {
    hide HasRoom, NoncesOf, NoncesOnce, GoodReleases, Admissions, FinishNonces, ReleasedNonces, Approve, Traced;
    var Timed(request, approved, now) := s.calls[call];
    var live := Unexpired(s.pending, now);
    var pruned := Pruned(NoncesOf(s.pending) - NoncesOf(live));
    var calls := s.calls - {call};
    ReserveKeepsNonces(s, call, id, nonceDrawn);
    QuietEvent(w, s.log, pruned, calls, live);
    var log := s.log + [pruned];
    var p := NewSession(approved, s.created, now);
    var admitted := Admitted(id, p, request);
    QuietEvent(w, log, admitted, calls, live);
    NewlyAdmitted(w, log, id, p, request);
  }

  lemma NewlyAdmitted(w: World, log: seq<Event>, id: SessionId, p: Pending, request: PrepareRequest)
    requires Approve(w.lib, w.signer, request) == Some(Approved(p.programId, p.intent, p.userNonce))
    ensures Traced(w, log + [Admitted(id, p, request)], p)
  {
    hide Admissions, Approve;
    LogGrowsTraced(w, log, Admitted(id, p, request));
    assert Admission(p, request) in Admissions(log + [Admitted(id, p, request)]);
  }

  /** A nonce no earlier finish took can be handed to one more call. */
  lemma NewlyTaken(w: World, log: seq<Event>, calls: map<CallId, Local>, pending: map<SessionId, Pending>,
                   call: CallId, p: Pending, request: FinishRequest)
    requires GoodReleases(w, log) && GoodCalls(w, log, calls) && AllTraced(w, log, pending) && Traced(w, log, p)
    requires p.nonce !in FinishNonces(log) && p.nonce !in ReleasedNonces(log) && call !in calls
    ensures var after := log + [TakenByFinish(p.nonce)];
      && GoodReleases(w, after) && AllTraced(w, after, pending)
      && GoodCalls(w, after, calls[call := Taken(p, request)])
  {
    hide GoodReleases, Admissions, FinishNonces, ReleasedNonces, Approve, Traced, FinishPartial;
    var e := TakenByFinish(p.nonce);
    LogGrowsTraced(w, log, e);
    TraceKept(w, log, e, p);
    forall c | c in calls ensures GoodLocal(w, log + [e], calls[c]) {
      if calls[c].Taken? { TraceKept(w, log, e, calls[c].pending); }
    }
    forall id | id in pending ensures Traced(w, log + [e], pending[id]) {
      TraceKept(w, log, e, pending[id]);
    }
  }

  lemma TakeKeepsTrace(w: World, s: State, call: CallId, request: FinishRequest)
    requires TraceInvariant(w, s) && call !in s.calls
    ensures TraceInvariant(w, TakeStep(s, call, request))
  {
    hide GoodReleases, GoodCalls, FinishNonces, ReleasedNonces, Traced, Consumed, OnceEach;
    TakeKeepsNonces(s, call, request);
    if request.session in s.pending {
      var p := s.pending[request.session];
      FinishNoncesAreConsumed(s.log);
      ReleasedWereTaken(w, s.log);
      assert p.nonce in NoncesOf(s.pending);
      NewlyTaken(w, s.log, s.calls, s.pending - {request.session}, call, p, request);
    }
  }

  lemma SignKeepsTrace(w: World, s: State, call: CallId)
    requires TraceInvariant(w, s) && call in s.calls && s.calls[call].Taken?
    ensures TraceInvariant(w, SignStep(w, s, call))
  {
    hide NoncesOnce, GoodReleases, Admissions, FinishNonces, ReleasedNonces, Approve, Traced, FinishPartial;
    SignKeepsNonces(w, s, call);
    var Taken(p, request) := s.calls[call];
    var partial := FinishPartial(w, p, request, s.clock);
    var t := SignStep(w, s, call);
    assert GoodLocal(w, s.log, s.calls[call]);
    if partial.Some? {
      var e := Released(p, request, s.clock, partial.value);
      LogGrowsTraced(w, s.log, e);
      forall c | c in t.calls ensures GoodLocal(w, t.log, t.calls[c]) {
        if t.calls[c].Taken? { TraceKept(w, s.log, e, t.calls[c].pending); }
      }
      forall id | id in t.pending ensures Traced(w, t.log, t.pending[id]) {
        TraceKept(w, s.log, e, s.pending[id]);
      }
    }
  }

  lemma CancelKeepsTrace(w: World, s: State, request: CancelRequest)
    requires TraceInvariant(w, s)
    ensures TraceInvariant(w, CancelStep(s, request))
  {
    hide NoncesOnce, GoodReleases, GoodCalls, Traced;
    CancelKeepsNonces(s, request);
    if request.session in s.pending {
      QuietEvent(w, s.log, TakenByCancel(s.pending[request.session].nonce), s.calls, s.pending);
    }
  }

  lemma {:induction false} ReleasedWereTaken(w: World, log: seq<Event>)
    requires GoodReleases(w, log)
    ensures ReleasedNonces(log) <= FinishNonces(log)
  {
    hide Traced, FinishPartial;
    if log != [] { ReleasedWereTaken(w, log[..|log| - 1]); }
  }

  lemma StepKeepsTrace(w: World, s: State, step: Step)
    requires TraceInvariant(w, s)
    ensures TraceInvariant(w, Apply(w, s, step))
  {
    hide NoncesOnce, GoodReleases, AllTraced, ReserveStep, TakeStep, SignStep, CancelStep, Approve, Traced, FinishNonces, ReleasedNonces;
    match step
    case Reserve(call, id, nonceDrawn) =>
      if call in s.calls && s.calls[call].Timed? { ReserveKeepsTrace(w, s, call, id, nonceDrawn); }
    case Take(call, finish) =>
      if call !in s.calls { TakeKeepsTrace(w, s, call, finish); }
    case Sign(call) => if call in s.calls && s.calls[call].Taken? { SignKeepsTrace(w, s, call); }
    case Cancel(cancel) => CancelKeepsTrace(w, s, cancel);
    case ReadClock(call) => QuietNonces(s, Apply(w, s, step));
    case Validate(call, request) => QuietNonces(s, Apply(w, s, step));
    case Tick(_) => QuietNonces(s, Apply(w, s, step));
  }

  lemma QuietNonces(s: State, t: State)
    requires NoncesOnce(s) && t.pending == s.pending && t.created == s.created && t.log == s.log
    ensures NoncesOnce(t)
  {}

  lemma {:induction false} RunKeepsTrace(w: World, clock: nat, steps: seq<Step>)
    ensures TraceInvariant(w, Run(w, Initial(clock), steps))
  {
    hide Apply;
    if steps != [] {
      RunKeepsTrace(w, clock, steps[..|steps| - 1]);
      StepKeepsTrace(w, Run(w, Initial(clock), steps[..|steps| - 1]), steps[|steps| - 1]);
    }
  }

  // ------------------------------------------------------- what follows from it

  lemma {:induction false} GoodReleaseAt(w: World, log: seq<Event>, j: nat)
    requires GoodReleases(w, log) && j < |log|
    ensures GoodRelease(w, log[..j], log[j])
  {
    hide GoodRelease;
    if j < |log| - 1 {
      GoodReleaseAt(w, log[..|log| - 1], j);
      assert log[..|log| - 1][..j] == log[..j];
    }
  }

  lemma {:induction false} AdmissionAt(log: seq<Event>, a: Admission) returns (i: nat)
    requires a in Admissions(log)
    ensures i < |log| && log[i].Admitted? && log[i].pending == a.pending && log[i].request == a.request
  {
    i := |log| - 1;
    if !(log[i].Admitted? && Admission(log[i].pending, log[i].request) == a) {
      i := AdmissionAt(log[..|log| - 1], a);
    }
  }

  lemma {:induction false} ReleasedAt(log: seq<Event>, i: nat)
    requires i < |log| && log[i].Released?
    ensures log[i].pending.nonce in ReleasedNonces(log)
  {
    if i < |log| - 1 { ReleasedAt(log[..|log| - 1], i); }
  }

  /** In every run, no nonce yields two partials. */
  lemma AtMostOnePartialPerNonce(w: World, clock: nat, steps: seq<Step>, i: nat, j: nat)
    requires var log := Run(w, Initial(clock), steps).log;
      i < j < |log| && log[i].Released? && log[j].Released?
    ensures var log := Run(w, Initial(clock), steps).log;
      log[i].pending.nonce != log[j].pending.nonce
  {
    hide Run, NoncesOnce, GoodReleases, ReleasedNonces, Traced, FinishPartial;
    RunKeepsTrace(w, clock, steps);
    var log := Run(w, Initial(clock), steps).log;
    GoodReleaseAt(w, log, j);
    ReleasedAt(log[..j], i);
  }

  /**
    In every run, a released partial belongs to a session that an earlier
    prepare admitted for a justified request with the same intent, program and
    user nonce; the finish was entitled to exactly this partial; and it was made
    with the secret whose public key the intent names as members[1].
   */
  lemma EveryPartialIsTraced(w: World, clock: nat, steps: seq<Step>, j: nat) returns (i: nat, g: Grounds)
    requires DerivationsAgree(w.lib)
    requires var log := Run(w, Initial(clock), steps).log; j < |log| && log[j].Released?
    ensures var log := Run(w, Initial(clock), steps).log;
      var p := log[j].pending;
      && i < j && log[i].Admitted? && log[i].pending == p
      && Justified(w.lib, w.signer, log[i].request, Approved(p.programId, p.intent, p.userNonce))
      && Entitled(w, p, log[j].finish, log[j].at, g, log[j].partial)
      && w.lib.publicKey(g.secret) == p.intent.program
  {
    hide Run, NoncesOnce, GoodReleases, ReleasedNonces, FinishNonces, Approve, Justified, Entitled, FinishPartial;
    RunKeepsTrace(w, clock, steps);
    var log := Run(w, Initial(clock), steps).log;
    var p := log[j].pending;
    GoodReleaseAt(w, log, j);
    var request :| Admission(p, request) in Admissions(log[..j])
      && Approve(w.lib, w.signer, request) == Some(Approved(p.programId, p.intent, p.userNonce));
    i := AdmissionAt(log[..j], Admission(p, request));
    ApprovalIsExact(w.lib, w.signer, request, Approved(p.programId, p.intent, p.userNonce));
    g := GroundsOf(w, p, log[j].finish, log[j].at, log[j].partial);
    KeyIsTheProgramMember(w, request, p, log[j].finish, log[j].at, g, log[j].partial);
  }

  /** The key checked when the session was prepared is the key that signs. */
  lemma KeyIsTheProgramMember(
    w: World, request: PrepareRequest, p: Pending, finish: FinishRequest, at: nat, g: Grounds, partial: Bytes)
    requires DerivationsAgree(w.lib)
    requires Justified(w.lib, w.signer, request, Approved(p.programId, p.intent, p.userNonce))
    requires Entitled(w, p, finish, at, g, partial)
    ensures w.lib.publicKey(g.secret) == p.intent.program
  {
    hide PolicyAdmissible, SpendJustified, OwnershipJustified;
    assert w.lib.derivePrivate(w.signer.root, p.programId) == Some(g.secret);
  }
}
