/**
  The setup and publication protocol (src/app.rs): a gate, a one-slot channel
  to a signer thread that consumes one job, two write-once cells, and request
  handlers that may be dropped at any await. Steps of handlers and of the
  thread interleave freely.
 */
module Setup {
  import opened ByteStrings
  import opened Outcomes
  import opened Approval

  type RequestId = nat
  type Settings = Bytes

  /**
    The channel's message: the oracle built from one root, and the readiness
    sender, known by its number. `settings` is history: whose request built it.
   */
  datatype Job = Job(number: nat, root: Xpriv, settings: Option<Settings>)

  datatype Identity = Identity(xpub: Xpub, settings: Option<Settings>)

  datatype Ready = Unsent | SentOk | SentErr | SenderDropped

  datatype Thread = Waiting | Binding(job: Job) | Serving(job: Job) | Exited

  /** Where a handler is; `Deriving` and `AwaitingReady` are the awaits. */
  datatype Phase =
    | Deriving(settings: Option<Settings>)
    | AwaitingReady(job: Job, settings: Option<Settings>)
    | Confirmed(job: Job, settings: Option<Settings>)
    | SignerSet(job: Job, settings: Option<Settings>)

  datatype State = State(
    nsm: bool,
    gate: Option<RequestId>,
    handlers: map<RequestId, Phase>,
    channel: Option<Job>,
    thread: Thread,
    ready: map<Job, Ready>,
    jobs: nat,
    identity: Option<Identity>,
    arkSigner: Option<Xpriv>,
    consumed: Option<Job>,       // history: the job the thread took
    published: seq<Identity>)    // history: every identity ever published

  datatype Step =
    | Begin(request: RequestId, settings: Settings, valid: bool)
    | BeginLocalDev(request: RequestId)
    | Derived(request: RequestId, root: Xpriv)
    | Abandon(request: RequestId)
    | Observe(request: RequestId)
    | SetSigner(request: RequestId)
    | SetIdentity(request: RequestId)
    | Receive
    | BindOk
    | BindErr
    | Stop

  function Initial(nsm: bool): (s: State)
  {
    State(nsm, None, map[], None, Waiting, map[], 0, None, None, None, [])
  }

  /** A handler ends: it leaves, releases the gate if it holds it, and drops its receiver. */
  function End(s: State, request: RequestId): (t: State)
  {
    s.(handlers := s.handlers - {request}, gate := if s.gate == Some(request) then None else s.gate)
  }

  /** The readiness receiver of a job is alive while its handler awaits it. */
  predicate ReceiverAlive(s: State, job: Job)
  {
    exists r :: r in s.handlers && s.handlers[r].AwaitingReady? && s.handlers[r].job == job
  }

  /** The thread ends: its receiver closes and a queued job is dropped with its sender. */
  function ThreadEnds(s: State): (t: State)
  {
    s.(thread := Exited, channel := None,
       ready := if s.channel.Some? then s.ready[s.channel.value := SenderDropped] else s.ready)
  }

  function InPhase(s: State, request: RequestId): (p: Option<Phase>)
  {
    if request in s.handlers then Some(s.handlers[request]) else None
  }

  /** The synchronous part of `install`: build everything from one root, then `try_send`. */
  function InstallStep(s: State, request: RequestId, root: Xpriv, settings: Option<Settings>): (t: State)
  {
    if s.channel.Some? || s.thread.Exited? then End(s, request)
    else
      var job := Job(s.jobs, root, settings);
      s.(jobs := s.jobs + 1, channel := Some(job), ready := s.ready[job := Unsent],
         handlers := s.handlers[request := AwaitingReady(job, settings)])
  }

  function ThreadStep(s: State, step: Step): (t: State)
  {
    match (step, s.thread)
    case (Receive, Waiting) =>
      if s.channel.None? then s
      else s.(thread := Binding(s.channel.value), consumed := s.channel, channel := None)
    case (BindOk, Binding(job)) =>
      if ReceiverAlive(s, job) then s.(thread := Serving(job), ready := s.ready[job := SentOk])
      else ThreadEnds(s)
    case (BindErr, Binding(job)) => ThreadEnds(s.(ready := s.ready[job := SentErr]))
    case (Stop, Binding(job)) => ThreadEnds(s.(ready := s.ready[job := SenderDropped]))
    case (Stop, _) => ThreadEnds(s)
    case _ => s
  }

  function HandlerStep(xpub: Xpriv -> Xpub, s: State, step: Step): (t: State)
  {
    match step
    case Begin(request, settings, valid) =>
      if !valid || request in s.handlers || s.gate.Some? || s.identity.Some? || !s.nsm then s
      else s.(gate := Some(request), handlers := s.handlers[request := Deriving(Some(settings))])
    case BeginLocalDev(request) =>
      if s.nsm || s.handlers != map[] || s.jobs > 0 then s
      else s.(handlers := s.handlers[request := Deriving(None)])
    case Derived(request, root) =>
      (match InPhase(s, request)
       case Some(Deriving(settings)) => InstallStep(s, request, root, settings)
       case _ => s)
    case Abandon(request) =>
      (match InPhase(s, request)
       case Some(Deriving(_)) => End(s, request)
       case Some(AwaitingReady(_, _)) => End(s, request)
       case _ => s)
    case Observe(request) =>
      (match InPhase(s, request)
       case Some(AwaitingReady(job, settings)) =>
         var ready := if job in s.ready then s.ready[job] else Unsent;
         if ready.Unsent? then s
         else if ready.SentOk? then s.(handlers := s.handlers[request := Confirmed(job, settings)])
         else End(s, request)
       case _ => s)
    case SetSigner(request) =>
      (match InPhase(s, request)
       case Some(Confirmed(job, settings)) =>
         if s.arkSigner.Some? then End(s, request)
         else s.(arkSigner := Some(job.root), handlers := s.handlers[request := SignerSet(job, settings)])
       case _ => s)
    case SetIdentity(request) =>
      (match InPhase(s, request)
       case Some(SignerSet(job, settings)) =>
         if s.identity.Some? then End(s, request)
         else
           var identity := Identity(xpub(job.root), settings);
           End(s, request).(identity := Some(identity), published := s.published + [identity])
       case _ => s)
    case _ => s
  }

  function Apply(xpub: Xpriv -> Xpub, s: State, step: Step): (t: State)
  {
    if step.Receive? || step.BindOk? || step.BindErr? || step.Stop? then ThreadStep(s, step)
    else HandlerStep(xpub, s, step)
  }

  function Run(xpub: Xpriv -> Xpub, s: State, steps: seq<Step>): (t: State)
  {
    if steps == [] then s else Apply(xpub, Run(xpub, s, steps[..|steps| - 1]), steps[|steps| - 1])
  }

  /** What the Ark routes get (`ark_signer`). */
  function ServedSigner(s: State): (r: Option<Xpriv>)
  {
    if s.identity.None? then None else s.arkSigner
  }

  // ------------------------------------------------------------ the invariant

  /** The thread reported a successful bind for this job, the only one it ever takes. */
  ghost predicate BoundFor(s: State, job: Job)
  {
    s.consumed == Some(job) && job in s.ready && s.ready[job] == SentOk
  }

  predicate PhaseHasJob(phase: Phase)
  {
    !phase.Deriving?
  }

  ghost predicate GoodPhase(s: State, phase: Phase)
  {
    match phase
    case Deriving(_) => true
    case AwaitingReady(job, settings) =>
      && job.settings == settings && job in s.ready && job.number < s.jobs
      && (s.arkSigner.Some? ==> s.consumed != Some(job))
    case Confirmed(job, settings) =>
      job.settings == settings && job.number < s.jobs && BoundFor(s, job) && s.arkSigner.None?
    case SignerSet(job, settings) =>
      && job.settings == settings && job.number < s.jobs && BoundFor(s, job)
      && s.arkSigner == Some(job.root) && s.identity.None?
  }

  ghost predicate HandlersGood(s: State)
  {
    && (forall r :: r in s.handlers ==> GoodPhase(s, s.handlers[r]))
    && (forall a, b :: a in s.handlers && b in s.handlers && SameJob(s.handlers[a], s.handlers[b]) ==> a == b)
  }

  predicate SameJob(a: Phase, b: Phase)
  {
    PhaseHasJob(a) && PhaseHasJob(b) && a.job == b.job
  }

  /** A setup in flight holds the gate; only the local-dev start runs without one, and then no setup starts. */
  ghost predicate GateHeld(s: State)
  {
    && (s.nsm ==> forall r :: r in s.handlers ==> s.gate == Some(r))
    && (s.gate.Some? ==> s.gate.value in s.handlers)
    && (!s.nsm ==> s.gate.None? && forall a, b :: a in s.handlers && b in s.handlers ==> a == b)
  }

  ghost predicate ThreadGood(s: State)
  {
    && (forall job :: job in s.ready ==> job.number < s.jobs)
    && (s.channel.Some? ==> s.channel.value in s.ready && s.ready[s.channel.value].Unsent?
                            && s.consumed != s.channel && !s.thread.Exited?)
    && (s.thread.Waiting? ==> s.consumed.None?)
    && (s.thread.Binding? ==> s.consumed == Some(s.thread.job) && s.thread.job in s.ready && s.ready[s.thread.job].Unsent?)
    && (s.thread.Serving? ==> BoundFor(s, s.thread.job))
    && (forall job :: job in s.ready && s.ready[job].SentOk? ==> s.consumed == Some(job))
  }

  ghost predicate CellsGood(xpub: Xpriv -> Xpub, s: State)
  {
    && (s.arkSigner.Some? ==> s.consumed.Some? && BoundFor(s, s.consumed.value) && s.arkSigner.value == s.consumed.value.root)
    && (s.identity.Some? ==> s.arkSigner.Some? && s.identity.value == Identity(xpub(s.arkSigner.value), s.consumed.value.settings))
    && s.published == (if s.identity.Some? then [s.identity.value] else [])
  }

  ghost predicate Inv(xpub: Xpriv -> Xpub, s: State)
  {
    HandlersGood(s) && GateHeld(s) && ThreadGood(s) && CellsGood(xpub, s)
  }

  lemma EndKeepsInv(xpub: Xpriv -> Xpub, s: State, request: RequestId)
    requires Inv(xpub, s)
    ensures Inv(xpub, End(s, request))
  {}

  lemma InstallKeepsInv(xpub: Xpriv -> Xpub, s: State, request: RequestId, root: Xpriv, settings: Option<Settings>)
    requires Inv(xpub, s) && request in s.handlers && s.handlers[request].Deriving?
    ensures Inv(xpub, InstallStep(s, request, root, settings))
  {
    EndKeepsInv(xpub, s, request);
  }

  lemma ThreadEndsKeepsInv(xpub: Xpriv -> Xpub, s: State)
    requires Inv(xpub, s)
    ensures Inv(xpub, ThreadEnds(s))
  {}

  lemma BindErrKeepsInv(xpub: Xpriv -> Xpub, s: State, result: Ready)
    requires Inv(xpub, s) && s.thread.Binding? && (result.SentErr? || result.SenderDropped?)
    ensures Inv(xpub, ThreadEnds(s.(ready := s.ready[s.thread.job := result])))
  {}

  lemma BindOkKeepsInv(xpub: Xpriv -> Xpub, s: State)
    requires Inv(xpub, s) && s.thread.Binding?
    ensures Inv(xpub, s.(thread := Serving(s.thread.job), ready := s.ready[s.thread.job := SentOk]))
  {}

  lemma ReceiveKeepsInv(xpub: Xpriv -> Xpub, s: State)
    requires Inv(xpub, s) && s.thread.Waiting?
    ensures s.channel.Some? ==>
      Inv(xpub, s.(thread := Binding(s.channel.value), consumed := s.channel, channel := None))
  {}

  lemma ThreadKeepsInv(xpub: Xpriv -> Xpub, s: State, step: Step)
    requires Inv(xpub, s)
    ensures Inv(xpub, ThreadStep(s, step))
  {
    hide ThreadEnds, Inv, ReceiverAlive;
    if s.thread.Binding? {
      BindErrKeepsInv(xpub, s, SentErr);
      BindErrKeepsInv(xpub, s, SenderDropped);
      BindOkKeepsInv(xpub, s);
    } else if s.thread.Waiting? {
      ReceiveKeepsInv(xpub, s);
    }
    ThreadEndsKeepsInv(xpub, s);
  }

  lemma PublishKeepsInv(xpub: Xpriv -> Xpub, s: State, request: RequestId)
    requires Inv(xpub, s)
    ensures request in s.handlers && s.handlers[request].SignerSet? && s.identity.None? ==>
      var identity := Identity(xpub(s.handlers[request].job.root), s.handlers[request].settings);
      Inv(xpub, End(s, request).(identity := Some(identity), published := s.published + [identity]))
  {
    EndKeepsInv(xpub, s, request);
    if request in s.handlers && s.handlers[request].SignerSet? {
      assert GoodPhase(s, s.handlers[request]);
    }
  }

  lemma BeginKeepsInv(xpub: Xpriv -> Xpub, s: State, request: RequestId, settings: Settings)
    requires Inv(xpub, s) && s.gate.None? && s.nsm
    ensures Inv(xpub, s.(gate := Some(request), handlers := s.handlers[request := Deriving(Some(settings))]))
  {}

  lemma LocalDevKeepsInv(xpub: Xpriv -> Xpub, s: State, request: RequestId)
    requires Inv(xpub, s) && !s.nsm && s.handlers == map[]
    ensures Inv(xpub, s.(handlers := s.handlers[request := Deriving(None)]))
  {}

  lemma ConfirmKeepsInv(xpub: Xpriv -> Xpub, s: State, request: RequestId)
    requires Inv(xpub, s) && request in s.handlers && s.handlers[request].AwaitingReady?
    requires var job := s.handlers[request].job; job in s.ready && s.ready[job].SentOk?
    ensures Inv(xpub, s.(handlers := s.handlers[request := Confirmed(s.handlers[request].job, s.handlers[request].settings)]))
  {}

  lemma SignerKeepsInv(xpub: Xpriv -> Xpub, s: State, request: RequestId)
    requires Inv(xpub, s) && request in s.handlers && s.handlers[request].Confirmed?
    ensures var Confirmed(job, settings) := s.handlers[request];
      Inv(xpub, s.(arkSigner := Some(job.root), handlers := s.handlers[request := SignerSet(job, settings)]))
  {
  }

  lemma HandlerKeepsInv(xpub: Xpriv -> Xpub, s: State, step: Step)
    requires Inv(xpub, s)
    ensures Inv(xpub, HandlerStep(xpub, s, step))
  {
    hide InstallStep, End, Inv;
    match step
    case Begin(request, settings, valid) =>
      if s.gate.None? && s.nsm { BeginKeepsInv(xpub, s, request, settings); }
    case BeginLocalDev(request) =>
      if !s.nsm && s.handlers == map[] { LocalDevKeepsInv(xpub, s, request); }
    case Derived(request, root) =>
      if InPhase(s, request).Some? && s.handlers[request].Deriving? {
        InstallKeepsInv(xpub, s, request, root, s.handlers[request].settings);
      }
    case Abandon(request) => EndKeepsInv(xpub, s, request);
    case Observe(request) =>
      EndKeepsInv(xpub, s, request);
      if InPhase(s, request).Some? && s.handlers[request].AwaitingReady? {
        var job := s.handlers[request].job;
        if job in s.ready && s.ready[job].SentOk? { ConfirmKeepsInv(xpub, s, request); }
      }
    case SetSigner(request) =>
      EndKeepsInv(xpub, s, request);
      if InPhase(s, request).Some? && s.handlers[request].Confirmed? { SignerKeepsInv(xpub, s, request); }
    case SetIdentity(request) =>
      EndKeepsInv(xpub, s, request);
      PublishKeepsInv(xpub, s, request);
    case _ =>
  }

  lemma {:induction false} RunKeepsInv(xpub: Xpriv -> Xpub, nsm: bool, steps: seq<Step>)
    ensures Inv(xpub, Run(xpub, Initial(nsm), steps))
  {
    hide HandlerStep, ThreadStep;
    if steps != [] {
      RunKeepsInv(xpub, nsm, steps[..|steps| - 1]);
      var s := Run(xpub, Initial(nsm), steps[..|steps| - 1]);
      ThreadKeepsInv(xpub, s, steps[|steps| - 1]);
      HandlerKeepsInv(xpub, s, steps[|steps| - 1]);
    }
  }

  // ------------------------------------------------------- what follows from it

  /**
    In every interleaving, at most one identity is ever published. When there
    is one, the Ark signer is set, the thread reported a successful bind for
    the job it took, and identity, Ark signer and served oracle come from that
    job's one root and settings.
   */
  lemma PublicationIsConsistent(xpub: Xpriv -> Xpub, nsm: bool, steps: seq<Step>)
    ensures var s := Run(xpub, Initial(nsm), steps);
      && |s.published| <= 1
      && (s.identity.None? <==> s.published == [])
      && (s.identity.Some? ==>
           && s.published == [s.identity.value]
           && s.consumed.Some? && BoundFor(s, s.consumed.value)
           && s.arkSigner == Some(s.consumed.value.root)
           && s.identity.value == Identity(xpub(s.consumed.value.root), s.consumed.value.settings)
           && ServedSigner(s) == Some(s.consumed.value.root)
           && (s.thread.Serving? ==> s.thread.job == s.consumed.value))
  {
    RunKeepsInv(xpub, nsm, steps);
  }

  /** A write-once cell and the consumed job never change once set. */
  lemma StepKeepsCells(xpub: Xpriv -> Xpub, s: State, step: Step)
    requires Inv(xpub, s)
    ensures var t := Apply(xpub, s, step);
      && (s.identity.Some? ==> t.identity == s.identity)
      && (s.arkSigner.Some? ==> t.arkSigner == s.arkSigner)
      && (s.consumed.Some? ==> t.consumed == s.consumed)
  {}

  lemma {:induction false} IdentityNeverChanges(xpub: Xpriv -> Xpub, nsm: bool, steps: seq<Step>, more: seq<Step>)
    requires Run(xpub, Initial(nsm), steps).identity.Some?
    ensures Run(xpub, Initial(nsm), steps + more).identity == Run(xpub, Initial(nsm), steps).identity
    ensures Run(xpub, Initial(nsm), steps + more).arkSigner == Run(xpub, Initial(nsm), steps).arkSigner
    decreases more
  {
    hide Apply;
    if more == [] {
      assert steps + more == steps;
      RunKeepsInv(xpub, nsm, steps);
    } else {
      var less := more[..|more| - 1];
      IdentityNeverChanges(xpub, nsm, steps, less);
      assert (steps + more)[..|steps + more| - 1] == steps + less;
      RunKeepsInv(xpub, nsm, steps + less);
      RunKeepsInv(xpub, nsm, steps);
      StepKeepsCells(xpub, Run(xpub, Initial(nsm), steps + less), more[|more| - 1]);
    }
  }

  /** At most one setup is past the gate at any moment. */
  lemma OneSetupAtATime(xpub: Xpriv -> Xpub, nsm: bool, steps: seq<Step>, a: RequestId, b: RequestId)
    requires var s := Run(xpub, Initial(nsm), steps); a in s.handlers && b in s.handlers
    ensures a == b
  {
    hide Run, HandlersGood, ThreadGood, CellsGood;
    RunKeepsInv(xpub, nsm, steps);
    RunKeepsMode(xpub, nsm, steps);
  }

  lemma {:induction false} RunKeepsMode(xpub: Xpriv -> Xpub, nsm: bool, steps: seq<Step>)
    ensures Run(xpub, Initial(nsm), steps).nsm == nsm
  {
    if steps != [] { RunKeepsMode(xpub, nsm, steps[..|steps| - 1]); }
  }

  /** The thread is gone without having reported a bind to anyone. */
  ghost predicate Dead(xpub: Xpriv -> Xpub, s: State)
  {
    && Inv(xpub, s) && s.thread.Exited? && s.identity.None? && s.arkSigner.None?
    && (forall job :: job in s.ready ==> !s.ready[job].SentOk?)
  }

  lemma StepKeepsDead(xpub: Xpriv -> Xpub, s: State, step: Step)
    requires Dead(xpub, s)
    ensures Dead(xpub, Apply(xpub, s, step))
  {
    assert forall r :: r in s.handlers ==> GoodPhase(s, s.handlers[r]);
    assert s.channel.None?;
    hide Inv;
    ThreadKeepsInv(xpub, s, step);
    HandlerKeepsInv(xpub, s, step);
  }

  lemma {:induction false} DeadStaysDead(xpub: Xpriv -> Xpub, s: State, more: seq<Step>)
    requires Dead(xpub, s)
    ensures Dead(xpub, Run(xpub, s, more))
  {
    hide Dead, Apply;
    if more != [] {
      DeadStaysDead(xpub, s, more[..|more| - 1]);
      StepKeepsDead(xpub, Run(xpub, s, more[..|more| - 1]), more[|more| - 1]);
    }
  }

  /**
    If the handler that sent the first job is gone when its bind completes, the
    thread exits and nothing is ever published, however the run goes on.
   */
  lemma LostHandlerPublishesNothing(xpub: Xpriv -> Xpub, nsm: bool, steps: seq<Step>, job: Job, more: seq<Step>)
    requires var s := Run(xpub, Initial(nsm), steps);
      s.thread == Binding(job) && !ReceiverAlive(s, job)
    ensures var s := Run(xpub, Apply(xpub, Run(xpub, Initial(nsm), steps), BindOk), more);
      s.thread.Exited? && s.identity.None? && s.arkSigner.None? && s.published == []
  {
    hide Run;
    RunKeepsInv(xpub, nsm, steps);
    var s := Run(xpub, Initial(nsm), steps);
    ThreadEndsKeepsInv(xpub, s);
    DeadStaysDead(xpub, Apply(xpub, s, BindOk), more);
  }
}
