/** What setup achieves (src/app.rs): who is admitted, what each outcome leaves behind, and that publication happens. */
module SetupProgress {
  import opened ByteStrings
  import opened Outcomes
  import opened Approval
  import opened Setup

  lemma RunSnoc(xpub: Xpriv -> Xpub, s: State, steps: seq<Step>, step: Step)
    ensures Run(xpub, s, steps + [step]) == Apply(xpub, Run(xpub, s, steps), step)
  {
    hide Apply;
    assert (steps + [step])[..|steps|] == steps;
  }

  lemma RunNothing(xpub: Xpriv -> Xpub, s: State)
    ensures Run(xpub, s, []) == s
  {}

  lemma ReachableKnows(xpub: Xpriv -> Xpub, nsm: bool, steps: seq<Step>)
    ensures var s := Run(xpub, Initial(nsm), steps); Inv(xpub, s) && s.nsm == nsm
  {
    RunKeepsInv(xpub, nsm, steps);
    RunKeepsMode(xpub, nsm, steps);
  }

  /** The gate is taken exactly while a setup is in flight: no outcome leaks it. */
  lemma GateIsTakenExactlyInFlight(xpub: Xpriv -> Xpub, nsm: bool, steps: seq<Step>)
    ensures var s := Run(xpub, Initial(nsm), steps);
      s.gate.Some? <==> nsm && s.handlers != map[]
  {
    hide Run, HandlersGood, ThreadGood, CellsGood;
    ReachableKnows(xpub, nsm, steps);
    var s := Run(xpub, Initial(nsm), steps);
    if nsm && s.handlers != map[] {
      assert s.handlers.Keys != {};
      var r :| r in s.handlers;
    }
  }

  /** A setup gets past the gate exactly when it is valid, alone, first and on Nitro; otherwise nothing changes. */
  lemma AdmissionIsExact(
    xpub: Xpriv -> Xpub, nsm: bool, steps: seq<Step>, request: RequestId, settings: Settings, valid: bool)
    requires request !in Run(xpub, Initial(nsm), steps).handlers
    ensures var s := Run(xpub, Initial(nsm), steps);
      var t := Apply(xpub, s, Begin(request, settings, valid));
      if valid && nsm && s.identity.None? && s.handlers == map[]
      then t == s.(gate := Some(request), handlers := map[request := Deriving(Some(settings))])
      else t == s
  {
    hide Run;
    ReachableKnows(xpub, nsm, steps);
    GateIsTakenExactlyInFlight(xpub, nsm, steps);
  }

  /** A bind that completes is reported to a waiting handler and served; without one the thread ends. */
  lemma BindIsReported(xpub: Xpriv -> Xpub, nsm: bool, steps: seq<Step>, job: Job)
    requires Run(xpub, Initial(nsm), steps).thread == Binding(job)
    ensures var s := Run(xpub, Initial(nsm), steps);
      var t := Apply(xpub, s, BindOk);
      if exists r :: r in s.handlers && s.handlers[r].AwaitingReady? && s.handlers[r].job == job
      then t == s.(thread := Serving(job), ready := s.ready[job := SentOk])
      else t.thread.Exited? && t.identity.None? && t.handlers == s.handlers
  {
    hide Run;
    ReachableKnows(xpub, nsm, steps);
  }

  /** The thread takes the queued job, and only a waiting thread does. */
  lemma QueuedJobIsTaken(xpub: Xpriv -> Xpub, s: State, job: Job)
    requires s.channel == Some(job)
    ensures var t := Apply(xpub, s, Receive);
      if s.thread.Waiting? then t == s.(thread := Binding(job), consumed := Some(job), channel := None) else t == s
  {}

  /** A waiting handler goes on exactly when its own job was reported ready, waits while nothing was sent, and ends otherwise. */
  lemma ReadinessIsExact(xpub: Xpriv -> Xpub, nsm: bool, steps: seq<Step>, request: RequestId)
    requires var s := Run(xpub, Initial(nsm), steps); request in s.handlers && s.handlers[request].AwaitingReady?
    ensures var s := Run(xpub, Initial(nsm), steps);
      var AwaitingReady(job, settings) := s.handlers[request];
      var t := Apply(xpub, s, Observe(request));
      && job in s.ready
      && match s.ready[job]
         case Unsent => t == s
         case SentOk => t == s.(handlers := s.handlers[request := Confirmed(job, settings)])
         case _ => t == s.(handlers := s.handlers - {request}, gate := None)
  {
    hide Run;
    ReachableKnows(xpub, nsm, steps);
    assert GoodPhase(Run(xpub, Initial(nsm), steps), Run(xpub, Initial(nsm), steps).handlers[request]);
  }

  /** Dropping a handler at either await removes it and frees the gate, and changes nothing else. */
  lemma DroppedHandlerFreesTheGate(xpub: Xpriv -> Xpub, nsm: bool, steps: seq<Step>, request: RequestId)
    requires var s := Run(xpub, Initial(nsm), steps);
      request in s.handlers && (s.handlers[request].Deriving? || s.handlers[request].AwaitingReady?)
    ensures var s := Run(xpub, Initial(nsm), steps);
      Apply(xpub, s, Abandon(request)) == s.(handlers := s.handlers - {request}, gate := None)
  {
    hide Run, HandlersGood, ThreadGood, CellsGood;
    ReachableKnows(xpub, nsm, steps);
  }

  /** With the channel full or the thread gone, a derived root is not installed and the gate is freed. */
  lemma InstallationNeedsTheThread(xpub: Xpriv -> Xpub, nsm: bool, steps: seq<Step>, request: RequestId, root: Xpriv)
    requires var s := Run(xpub, Initial(nsm), steps); request in s.handlers && s.handlers[request].Deriving?
    ensures var s := Run(xpub, Initial(nsm), steps);
      var t := Apply(xpub, s, Derived(request, root));
      var job := Job(s.jobs, root, s.handlers[request].settings);
      if s.channel.Some? || s.thread.Exited?
      then t == s.(handlers := s.handlers - {request}, gate := None)
      else && t.channel == Some(job) && t.handlers == s.handlers[request := AwaitingReady(job, job.settings)]
           && t.thread == s.thread && t.identity == s.identity && t.arkSigner == s.arkSigner && t.gate == s.gate
  {
    hide Run, HandlersGood, ThreadGood, CellsGood;
    ReachableKnows(xpub, nsm, steps);
  }

  /** A failed bind ends the thread and the handler: nothing is published and the gate is free. */
  lemma FailedBindFreesTheGate(xpub: Xpriv -> Xpub, nsm: bool, steps: seq<Step>, request: RequestId, job: Job, settings: Option<Settings>)
    requires var s := Run(xpub, Initial(nsm), steps);
      s.thread == Binding(job) && request in s.handlers && s.handlers[request] == AwaitingReady(job, settings)
    ensures var t := Run(xpub, Initial(nsm), steps + [BindErr] + [Observe(request)]);
      && request !in t.handlers && t.gate.None? && t.thread.Exited?
      && t.published == [] && t.identity.None? && t.arkSigner.None?
  {
    RunSnoc(xpub, Initial(nsm), steps, BindErr);
    RunSnoc(xpub, Initial(nsm), steps + [BindErr], Observe(request));
    hide Run;
    ReachableKnows(xpub, nsm, steps);
    ReachableKnows(xpub, nsm, steps + [BindErr]);
    ReadinessIsExact(xpub, nsm, steps + [BindErr], request);
    var s := Run(xpub, Initial(nsm), steps);
    assert s.channel != Some(job);
  }

  /** A thread that stops before it reports drops the readiness sender, queued or taken, and so ends the setup. */
  lemma StoppedThreadFreesTheGate(xpub: Xpriv -> Xpub, nsm: bool, steps: seq<Step>, request: RequestId, job: Job, settings: Option<Settings>)
    requires var s := Run(xpub, Initial(nsm), steps);
      && (s.thread == Binding(job) || s.channel == Some(job))
      && request in s.handlers && s.handlers[request] == AwaitingReady(job, settings)
    ensures var t := Run(xpub, Initial(nsm), steps + [Stop] + [Observe(request)]);
      request !in t.handlers && t.gate.None? && t.thread.Exited? && t.identity == Run(xpub, Initial(nsm), steps).identity
  {
    RunSnoc(xpub, Initial(nsm), steps, Stop);
    RunSnoc(xpub, Initial(nsm), steps + [Stop], Observe(request));
    StopDropsTheSender(xpub, Run(xpub, Initial(nsm), steps), job);
    hide Run, Inv, Apply;
    ReadinessIsExact(xpub, nsm, steps + [Stop], request);
  }

  lemma StopDropsTheSender(xpub: Xpriv -> Xpub, s: State, job: Job)
    requires s.thread == Binding(job) || s.channel == Some(job)
    ensures var t := Apply(xpub, s, Stop);
      && t.thread.Exited? && job in t.ready && t.ready[job].SenderDropped?
      && t.handlers == s.handlers && t.identity == s.identity
  {}

  /** Once readiness is confirmed, publication cannot fail: neither write-once cell is taken. */
  lemma ConfirmedSetupPublishes(xpub: Xpriv -> Xpub, nsm: bool, steps: seq<Step>, request: RequestId, job: Job, settings: Option<Settings>)
    requires var s := Run(xpub, Initial(nsm), steps);
      request in s.handlers && s.handlers[request] == Confirmed(job, settings)
    ensures var t := Run(xpub, Initial(nsm), steps + [SetSigner(request)] + [SetIdentity(request)]);
      && t.identity == Some(Identity(xpub(job.root), settings)) && t.published == [t.identity.value]
      && t.arkSigner == Some(job.root) && ServedSigner(t) == Some(job.root)
      && t.handlers == map[] && t.gate.None? && t.consumed == Some(job)
      && t.thread == Run(xpub, Initial(nsm), steps).thread
  {
    RunSnoc(xpub, Initial(nsm), steps, SetSigner(request));
    RunSnoc(xpub, Initial(nsm), steps + [SetSigner(request)], SetIdentity(request));
    hide Run;
    ReachableKnows(xpub, nsm, steps);
    var s := Run(xpub, Initial(nsm), steps);
    assert GoodPhase(s, s.handlers[request]);
    OnlyHandler(xpub, s, request);
  }

  lemma OnlyHandler(xpub: Xpriv -> Xpub, s: State, request: RequestId)
    requires Inv(xpub, s) && request in s.handlers
    ensures s.handlers == map[request := s.handlers[request]]
    ensures s.gate == if s.nsm then Some(request) else None
  {
    hide HandlersGood, ThreadGood, CellsGood;
  }

  /** From an awaiting handler and its bound job to publication. */
  lemma AwaitedSetupPublishes(xpub: Xpriv -> Xpub, nsm: bool, steps: seq<Step>, request: RequestId, job: Job, settings: Option<Settings>)
    requires var s := Run(xpub, Initial(nsm), steps);
      && request in s.handlers && s.handlers[request] == AwaitingReady(job, settings)
      && s.channel == Some(job) && s.thread.Waiting?
    ensures var t := Run(xpub, Initial(nsm),
        steps + [Receive] + [BindOk] + [Observe(request)] + [SetSigner(request)] + [SetIdentity(request)]);
      && t.identity == Some(Identity(xpub(job.root), settings)) && t.published == [t.identity.value]
      && t.arkSigner == Some(job.root) && ServedSigner(t) == Some(job.root)
      && t.handlers == map[] && t.gate.None? && t.thread == Serving(job)
  {
    var received := steps + [Receive];
    var bound := received + [BindOk];
    var observed := bound + [Observe(request)];
    RunSnoc(xpub, Initial(nsm), steps, Receive);
    RunSnoc(xpub, Initial(nsm), received, BindOk);
    RunSnoc(xpub, Initial(nsm), bound, Observe(request));
    hide Run, Inv, Apply;
    QueuedJobIsTaken(xpub, Run(xpub, Initial(nsm), steps), job);
    BindIsReported(xpub, nsm, received, job);
    ReadinessIsExact(xpub, nsm, bound, request);
    ConfirmedSetupPublishes(xpub, nsm, observed, request, job, settings);
  }

  /**
    An uninterrupted setup succeeds: from every reachable state of a Nitro
    enclave with no setup in flight, nothing published, an empty channel and a
    waiting thread, it publishes the identity of its own root and settings, and
    that root is served.
   */
  lemma UninterruptedSetupPublishes(
    xpub: Xpriv -> Xpub, steps: seq<Step>, request: RequestId, settings: Settings, root: Xpriv)
    requires var s := Run(xpub, Initial(true), steps);
      s.gate.None? && s.identity.None? && s.channel.None? && s.thread.Waiting?
    ensures var s := Run(xpub, Initial(true), steps);
      var t := Run(xpub, Initial(true), steps + [Begin(request, settings, true)] + [Derived(request, root)]
                 + [Receive] + [BindOk] + [Observe(request)] + [SetSigner(request)] + [SetIdentity(request)]);
      && t.identity == Some(Identity(xpub(root), Some(settings))) && t.published == [t.identity.value]
      && t.arkSigner == Some(root) && ServedSigner(t) == Some(root)
      && t.handlers == map[] && t.gate.None? && t.thread == Serving(Job(s.jobs, root, Some(settings)))
  {
    var s := Run(xpub, Initial(true), steps);
    var begun := steps + [Begin(request, settings, true)];
    var derived := begun + [Derived(request, root)];
    RunSnoc(xpub, Initial(true), steps, Begin(request, settings, true));
    RunSnoc(xpub, Initial(true), begun, Derived(request, root));
    hide Run, Inv, Apply;
    GateIsTakenExactlyInFlight(xpub, true, steps);
    AdmissionIsExact(xpub, true, steps, request, settings, true);
    InstallationNeedsTheThread(xpub, true, begun, request, root);
    AwaitedSetupPublishes(xpub, true, derived, request, Job(s.jobs, root, Some(settings)), Some(settings));
  }

  /** Local development publishes its one root without settings, and admits no setup request. */
  lemma LocalDevPublishes(xpub: Xpriv -> Xpub, request: RequestId, root: Xpriv)
    ensures var t := Run(xpub, Initial(false), [BeginLocalDev(request)] + [Derived(request, root)]
                 + [Receive] + [BindOk] + [Observe(request)] + [SetSigner(request)] + [SetIdentity(request)]);
      t.identity == Some(Identity(xpub(root), None)) && ServedSigner(t) == Some(root)
  {
    var s := Initial(false);
    var begun := [BeginLocalDev(request)];
    var derived := begun + [Derived(request, root)];
    RunNothing(xpub, s);
    assert [] + begun == begun;
    RunSnoc(xpub, s, [], BeginLocalDev(request));
    RunSnoc(xpub, s, begun, Derived(request, root));
    hide Run, Inv;
    InstallationNeedsTheThread(xpub, false, begun, request, root);
    AwaitedSetupPublishes(xpub, false, derived, request, Job(0, root, None), None);
  }
}
