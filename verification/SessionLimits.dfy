/** The caps on pending sessions, and lazy expiry as a refinement of eager expiry. */
module SessionLimits {
  import opened ByteStrings
  import opened Outcomes
  import opened Approval
  import opened Sessions

  // -------------------------------------------------------------------- caps

  ghost predicate Capped(pending: map<SessionId, Pending>)
  {
    && |pending| <= MAX_PENDING_SESSIONS
    && forall wallet :: |HeldBy(pending, wallet)| <= MAX_SESSIONS_PER_USER
  }

  lemma SubsetIsSmaller<T>(small: set<T>, large: set<T>)
    requires small <= large
    ensures |small| <= |large|
  {
    assert large == small + (large - small);
  }

  /** Removing sessions, by any of the three ways, keeps the caps. */
  lemma SubmapKeepsCaps(small: map<SessionId, Pending>, large: map<SessionId, Pending>)
    requires Capped(large) && small.Keys <= large.Keys && forall id :: id in small ==> small[id] == large[id]
    ensures Capped(small)
  {
    SubsetIsSmaller(small.Keys, large.Keys);
    forall wallet ensures |HeldBy(small, wallet)| <= MAX_SESSIONS_PER_USER {
      SubsetIsSmaller(HeldBy(small, wallet), HeldBy(large, wallet));
    }
  }

  lemma HeldAfterInsertion(live: map<SessionId, Pending>, id: SessionId, p: Pending, wallet: Key)
    requires id !in live
    ensures HeldBy(live[id := p], wallet) == HeldBy(live, wallet) + (if wallet == p.intent.user then {id} else {})
    ensures id !in HeldBy(live, wallet)
  {}

  lemma InsertionKeepsCaps(live: map<SessionId, Pending>, id: SessionId, p: Pending)
    requires Capped(live) && id !in live && HasRoom(live, p.intent.user)
    ensures Capped(live[id := p])
  {
    hide HeldBy;
    var more := live[id := p];
    assert more.Keys == live.Keys + {id};
    forall wallet ensures |HeldBy(more, wallet)| <= MAX_SESSIONS_PER_USER {
      HeldAfterInsertion(live, id, p, wallet);
    }
  }

  lemma ReserveKeepsCaps(s: State, call: CallId, id: SessionId, nonceDrawn: bool)
    requires Capped(s.pending) && call in s.calls && s.calls[call].Timed?
    ensures Capped(ReserveStep(s, call, id, nonceDrawn).pending)
  {
    hide HasRoom, NoncesOf, Capped;
    var Timed(request, approved, now) := s.calls[call];
    var live := Unexpired(s.pending, now);
    SubmapKeepsCaps(live, s.pending);
    if id !in live && HasRoom(live, approved.intent.user) {
      InsertionKeepsCaps(live, id, NewSession(approved, s.created, now));
    }
  }

  lemma RemovalKeepsCaps(pending: map<SessionId, Pending>, id: SessionId)
    requires Capped(pending)
    ensures Capped(pending - {id})
  {
    hide Capped;
    SubmapKeepsCaps(pending - {id}, pending);
  }

  /** Only the three locked sections touch the map. */
  lemma OtherStepsKeepPending(w: World, s: State, step: Step)
    requires !step.Reserve? && !step.Take? && !step.Cancel?
    ensures Apply(w, s, step).pending == s.pending
  {
    hide Approve, FinishPartial, ReserveStep, TakeStep, CancelStep;
  }

  lemma StepKeepsCaps(w: World, s: State, step: Step)
    requires Capped(s.pending)
    ensures Capped(Apply(w, s, step).pending)
  {
    hide Capped, ReserveStep, SignStep, Approve;
    match step
    case Reserve(call, id, nonceDrawn) =>
      if call in s.calls && s.calls[call].Timed? { ReserveKeepsCaps(s, call, id, nonceDrawn); }
    case Take(call, finish) => RemovalKeepsCaps(s.pending, finish.session);
    case Cancel(cancel) => RemovalKeepsCaps(s.pending, cancel.session);
    case _ => OtherStepsKeepPending(w, s, step);
  }

  /** Every reachable state has at most 256 pending sessions and at most 8 per wallet key. */
  lemma {:induction false} CapsHold(w: World, clock: nat, steps: seq<Step>)
    ensures Capped(Run(w, Initial(clock), steps).pending)
  {
    hide Apply;
    if steps == [] {
      forall wallet ensures |HeldBy(map[], wallet)| <= MAX_SESSIONS_PER_USER {
        assert HeldBy(map[], wallet) == {};
      }
    } else {
      CapsHold(w, clock, steps[..|steps| - 1]);
      StepKeepsCaps(w, Run(w, Initial(clock), steps[..|steps| - 1]), steps[|steps| - 1]);
    }
  }

  function Wallets(pending: map<SessionId, Pending>): (wallets: set<Key>)
  {
    set id | id in pending :: pending[id].intent.user
  }

  function HeldByAny(pending: map<SessionId, Pending>, wallets: set<Key>): (ids: set<SessionId>)
  {
    set id | id in pending && pending[id].intent.user in wallets
  }

  lemma HeldByOneMore(pending: map<SessionId, Pending>, wallets: set<Key>, wallet: Key)
    requires wallet in wallets
    ensures HeldByAny(pending, wallets) == HeldByAny(pending, wallets - {wallet}) + HeldBy(pending, wallet)
    ensures HeldByAny(pending, wallets - {wallet}) !! HeldBy(pending, wallet)
  {}

  lemma {:induction false} EightPerWallet(pending: map<SessionId, Pending>, wallets: set<Key>)
    requires Capped(pending)
    ensures |HeldByAny(pending, wallets)| <= MAX_SESSIONS_PER_USER * |wallets|
    decreases wallets
  {
    if wallets == {} {
      assert HeldByAny(pending, wallets) == {};
    } else {
      hide HeldBy, HeldByAny;
      var wallet :| wallet in wallets;
      EightPerWallet(pending, wallets - {wallet});
      HeldByOneMore(pending, wallets, wallet);
    }
  }

  /** A full pool needs at least 32 distinct wallet keys. */
  lemma FullPoolNeedsManyWallets(w: World, clock: nat, steps: seq<Step>)
    ensures var pending := Run(w, Initial(clock), steps).pending;
      && |pending| <= MAX_SESSIONS_PER_USER * |Wallets(pending)|
      && (|pending| == MAX_PENDING_SESSIONS ==> |Wallets(pending)| >= 32)
  {
    hide Run, Capped;
    CapsHold(w, clock, steps);
    var pending := Run(w, Initial(clock), steps).pending;
    assert HeldByAny(pending, Wallets(pending)) == pending.Keys;
    EightPerWallet(pending, Wallets(pending));
  }

  /**
    An approved prepare whose nonce and id draws succeed is admitted exactly
    when fewer than 256 sessions, and fewer than 8 of its wallet's, are
    unexpired at its clock reading. A rejected one changes the map only by
    dropping sessions expired at that reading.
   */
  lemma AdmissionIsExact(s: State, call: CallId, id: SessionId, nonceDrawn: bool)
    requires call in s.calls && s.calls[call].Timed?
    requires id !in Unexpired(s.pending, s.calls[call].now)
    ensures var live := Unexpired(s.pending, s.calls[call].now);
      var t := ReserveStep(s, call, id, nonceDrawn);
      var wallet := s.calls[call].approved.intent.user;
      if nonceDrawn && |live| < 256 && |HeldBy(live, wallet)| < 8
      then t.pending == live[id := NewSession(s.calls[call].approved, s.created, s.calls[call].now)] && t.created == s.created + 1
      else t.pending == live && t.created == s.created
  {
    hide NoncesOf, Unexpired, HeldBy, NewSession;
  }

  // -------------------------------------------------------------------- time

  /** No expiry is further away than one lifetime, and no clock reading is in the future. */
  ghost predicate TimesBounded(s: State)
  {
    && (forall id :: id in s.pending ==> s.pending[id].expires <= s.clock + SESSION_LIFETIME)
    && (forall c :: c in s.calls && s.calls[c].Timed? ==> s.calls[c].now <= s.clock)
  }

  lemma StepKeepsTimes(w: World, s: State, step: Step)
    requires TimesBounded(s)
    ensures TimesBounded(Apply(w, s, step))
    ensures s.clock <= Apply(w, s, step).clock
  {
    hide Approve, FinishPartial, HasRoom, NoncesOf;
  }

  lemma {:induction false} TimesHold(w: World, clock: nat, steps: seq<Step>)
    ensures TimesBounded(Run(w, Initial(clock), steps))
  {
    hide Apply;
    if steps != [] {
      TimesHold(w, clock, steps[..|steps| - 1]);
      StepKeepsTimes(w, Run(w, Initial(clock), steps[..|steps| - 1]), steps[|steps| - 1]);
    }
  }

  /** The specification: sessions vanish the instant they expire. */
  function Eager(s: State): (live: map<SessionId, Pending>)
  {
    Unexpired(s.pending, s.clock)
  }

  /** The session a step names for removal. */
  function Named(step: Step): (id: Option<SessionId>)
  {
    match step
    case Take(_, finish) => Some(finish.session)
    case Cancel(cancel) => Some(cancel.session)
    case _ => None
  }

  /** Admission in the eager specification: room among the unexpired sessions, an unused id, a session of bounded life. */
  ghost predicate EagerAdmits(s: State, approved: Approved, now: nat, id: SessionId, t: State)
  {
    && now <= s.clock && HasRoom(Eager(s), approved.intent.user) && id !in Eager(s)
    && Eager(t) == Eager(s)[id := NewSession(approved, s.created, now)]
  }

  lemma RoomInSubmap(small: map<SessionId, Pending>, large: map<SessionId, Pending>, wallet: Key)
    requires small.Keys <= large.Keys && forall id :: id in small ==> small[id] == large[id]
    ensures HasRoom(large, wallet) ==> HasRoom(small, wallet)
  {
    SubsetIsSmaller(small.Keys, large.Keys);
    SubsetIsSmaller(HeldBy(small, wallet), HeldBy(large, wallet));
  }

  /** One step of the eager specification. */
  ghost predicate EagerStep(s: State, step: Step, t: State)
  {
    match step
    case Tick(elapsed) => Eager(t) == Unexpired(Eager(s), s.clock + elapsed)
    case Reserve(call, id, _) =>
      || Eager(t) == Eager(s)
      || (call in s.calls && s.calls[call].Timed? && EagerAdmits(s, s.calls[call].approved, s.calls[call].now, id, t))
    case Take(call, finish) => Eager(t) == (if call in s.calls then Eager(s) else Eager(s) - {finish.session})
    case Cancel(cancel) => Eager(t) == Eager(s) - {cancel.session}
    case _ => Eager(t) == Eager(s)
  }

  lemma InsertionUnexpired(live: map<SessionId, Pending>, id: SessionId, p: Pending, now: nat)
    requires id !in live
    ensures Unexpired(live[id := p], now) == if p.expires > now then Unexpired(live, now)[id := p] else Unexpired(live, now)
    ensures id !in Unexpired(live, now)
  {}

  lemma ReserveRefinesEager(s: State, call: CallId, id: SessionId, nonceDrawn: bool)
    requires TimesBounded(s) && call in s.calls && s.calls[call].Timed?
    ensures EagerStep(s, Reserve(call, id, nonceDrawn), ReserveStep(s, call, id, nonceDrawn))
  {
    var Timed(request, approved, now) := s.calls[call];
    var live := Unexpired(s.pending, now);
    var t := ReserveStep(s, call, id, nonceDrawn);
    LaterIsSmaller(s.pending, now, s.clock);
    RoomInSubmap(Eager(s), live, approved.intent.user);
    hide Unexpired, HasRoom, NoncesOf;
    if id !in live {
      InsertionUnexpired(live, id, NewSession(approved, s.created, now), s.clock);
    }
  }

  lemma RemovalRefinesEager(pending: map<SessionId, Pending>, id: SessionId, now: nat)
    ensures Unexpired(pending - {id}, now) == Unexpired(pending, now) - {id}
  {}

  /** Lazy pruning at a possibly stale reading is invisible: every step is a step of the eager specification. */
  lemma LazyRefinesEager(w: World, s: State, step: Step)
    requires TimesBounded(s)
    ensures EagerStep(s, step, Apply(w, s, step))
  {
    hide Approve, FinishPartial, ReserveStep, Unexpired;
    match step
    case Tick(elapsed) => LaterIsSmaller(s.pending, s.clock, s.clock + elapsed);
    case Reserve(call, id, nonceDrawn) =>
      if call in s.calls && s.calls[call].Timed? { ReserveRefinesEager(s, call, id, nonceDrawn); }
    case Take(call, finish) =>
      RemovalRefinesEager(s.pending, finish.session, s.clock);
      AbsentIsUnaffected(s.pending, finish.session, s.clock);
    case Cancel(cancel) =>
      RemovalRefinesEager(s.pending, cancel.session, s.clock);
      AbsentIsUnaffected(s.pending, cancel.session, s.clock);
    case _ =>
  }

  /** Hence every run is, step by step, a run of the eager specification. */
  lemma RunRefinesEager(w: World, clock: nat, steps: seq<Step>, k: nat)
    requires k < |steps|
    ensures EagerStep(Run(w, Initial(clock), steps[..k]), steps[k], Run(w, Initial(clock), steps[..k + 1]))
  {
    hide EagerStep, Apply;
    TimesHold(w, clock, steps[..k]);
    LazyRefinesEager(w, Run(w, Initial(clock), steps[..k]), steps[k]);
    assert steps[..k + 1][..k] == steps[..k];
  }

  lemma LaterIsSmaller(pending: map<SessionId, Pending>, now: nat, later: nat)
    requires now <= later
    ensures Unexpired(pending, later) == Unexpired(Unexpired(pending, now), later)
  {}

  lemma AbsentIsUnaffected(pending: map<SessionId, Pending>, id: SessionId, now: nat)
    ensures id !in pending ==> Unexpired(pending, now) - {id} == Unexpired(pending, now)
  {}

  /** In a reachable state, no step that does not name a session removes it while it is unexpired. */
  lemma UnexpiredSessionsSurvive(w: World, clock: nat, steps: seq<Step>, step: Step, id: SessionId)
    requires var s := Run(w, Initial(clock), steps);
      id in s.pending && s.pending[id].expires > Apply(w, s, step).clock && Named(step) != Some(id)
    ensures var s := Run(w, Initial(clock), steps);
      id in Apply(w, s, step).pending && Apply(w, s, step).pending[id] == s.pending[id]
  {
    hide Approve, FinishPartial, HasRoom, NoncesOf, Run;
    TimesHold(w, clock, steps);
  }

  /** Whatever a prepare prunes, `finish` would refuse at that moment and at every later one. */
  lemma PrunedSessionsWereDead(
    w: World, clock: nat, steps: seq<Step>, call: CallId, id: SessionId, nonceDrawn: bool,
    gone: SessionId, request: FinishRequest, later: nat)
    requires var s := Run(w, Initial(clock), steps);
      && call in s.calls && s.calls[call].Timed? && later >= s.clock
      && gone in s.pending && gone !in ReserveStep(s, call, id, nonceDrawn).pending
    ensures FinishPartial(w, Run(w, Initial(clock), steps).pending[gone], request, later) == None
  {
    hide HasRoom, NoncesOf, Run;
    TimesHold(w, clock, steps);
  }

  /** A finish that takes a session the eager specification no longer has releases nothing, ever. */
  lemma ExpiredTakeIsRefused(w: World, s: State, finish: FinishRequest, later: nat)
    requires finish.session in s.pending && finish.session !in Eager(s) && later >= s.clock
    ensures FinishPartial(w, s.pending[finish.session], finish, later) == None
  {}
}
