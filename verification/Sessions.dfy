/**
  The one-use signing sessions of `ArkSigner` (src/ark_signer.rs) as a
  transition system. Any number of calls interleave; an atomic step is a clock
  tick, a validation, a clock reading, the locked section of `prepare`, the
  locked removal of `finish` or `cancel`, or the checks and signature that
  `finish` performs after it has released the lock. A log records what happened
  to every secret nonce.
 */
module Sessions {
  import opened ByteStrings
  import opened Outcomes
  import opened Approval

  type SessionId = Digest
  type CallId = nat

  const MAX_PENDING_SESSIONS: nat := 256
  const MAX_SESSIONS_PER_USER: nat := 8
  /** 120 seconds; the clock counts nanoseconds. */
  const SESSION_LIFETIME: nat := 120_000_000_000

  /** A secret nonce is known by its serial number: the generator never repeats one. */
  type Nonce = nat

  datatype Pending = Pending(programId: ProgramId, intent: Intent, userNonce: Bytes, nonce: Nonce, expires: nat)

  datatype FinishRequest = FinishRequest(
    protocol: string, session: SessionId, serverNonce: Option<string>, serverPartial: Option<string>)

  datatype CancelRequest = CancelRequest(protocol: string, session: SessionId)

  /** The MuSig calls of `finish`. */
  datatype Musig = Musig(
    publicNonce: Nonce -> Bytes,
    parseNonce: string -> Option<Bytes>,
    parsePartial: string -> Option<Bytes>,
    session: (Intent, Bytes, Bytes, Option<Bytes>) -> Option<Bytes>,
    verifyServer: (Bytes, Bytes) -> bool,
    sign: (Nonce, Bytes, Bytes) -> Option<Bytes>)

  datatype World = World(lib: Library, musig: Musig, signer: Signer)

  // ------------------------------------------------- the three locked sections

  /** `retain`: what is left of the map at a clock reading. */
  function Unexpired(pending: map<SessionId, Pending>, now: nat): (live: map<SessionId, Pending>)
  {
    map id | id in pending && pending[id].expires > now :: pending[id]
  }

  /** The sessions of one wallet key. */
  function HeldBy(pending: map<SessionId, Pending>, wallet: Key): (ids: set<SessionId>)
  {
    set id | id in pending && pending[id].intent.user == wallet
  }

  predicate HasRoom(live: map<SessionId, Pending>, wallet: Key)
  {
    |live| < MAX_PENDING_SESSIONS && |HeldBy(live, wallet)| < MAX_SESSIONS_PER_USER
  }

  function NewSession(a: Approved, nonce: Nonce, now: nat): (p: Pending)
  {
    Pending(a.programId, a.intent, a.userNonce, nonce, now + SESSION_LIFETIME)
  }

  /** The checks and the signature of `finish`, on a session already out of the map. */
  function FinishPartial(w: World, p: Pending, request: FinishRequest, now: nat): (partial: Option<Bytes>)
  {
    if request.protocol != SIGNING_PROTOCOL || p.expires <= now then None else
    var serverNonce := if request.serverNonce.Some? then w.musig.parseNonce(request.serverNonce.value) else None;
    var serverPartial := if request.serverPartial.Some? then w.musig.parsePartial(request.serverPartial.value) else None;
    if request.serverNonce.Some? != serverNonce.Some? || request.serverPartial.Some? != serverPartial.Some? then None
    else if p.intent.server.None? && serverPartial.Some? then None
    else match w.musig.session(p.intent, p.userNonce, w.musig.publicNonce(p.nonce), serverNonce)
    case None => None
    case Some(session) =>
      if serverPartial.Some? && !w.musig.verifyServer(session, serverPartial.value) then None else
      match w.lib.derivePrivate(w.signer.root, p.programId)
      case None => None
      case Some(secret) => w.musig.sign(p.nonce, secret, session)
  }

  // ------------------------------------------------------------------- states

  /** Where a call is between its atomic steps. */
  datatype Local =
    | Validated(request: PrepareRequest, approved: Approved)
    | Timed(request: PrepareRequest, approved: Approved, now: nat)
    | Taken(pending: Pending, finish: FinishRequest)

  datatype Event =
    | Admitted(session: SessionId, pending: Pending, request: PrepareRequest)
    | Pruned(nonces: set<Nonce>)
    | TakenByFinish(nonce: Nonce)
    | TakenByCancel(nonce: Nonce)
    | Released(pending: Pending, finish: FinishRequest, at: nat, partial: Bytes)

  datatype State = State(
    clock: nat, pending: map<SessionId, Pending>, calls: map<CallId, Local>, created: nat, log: seq<Event>)

  /** Nondeterminism is in the step: who moves, what arrives, what the generator draws. */
  datatype Step =
    | Tick(elapsed: nat)
    | Validate(call: CallId, request: PrepareRequest)
    | ReadClock(call: CallId)
    | Reserve(call: CallId, id: SessionId, nonceDrawn: bool)
    | Take(call: CallId, finish: FinishRequest)
    | Sign(call: CallId)
    | Cancel(cancel: CancelRequest)

  function Initial(clock: nat): (s: State)
  {
    State(clock, map[], map[], 0, [])
  }

  function NoncesOf(pending: map<SessionId, Pending>): (nonces: set<Nonce>)
  {
    set id | id in pending :: pending[id].nonce
  }

  /** The locked section of `prepare`: prune at the (possibly stale) reading, check, insert. */
  function ReserveStep(s: State, call: CallId, id: SessionId, nonceDrawn: bool): (t: State)
    requires call in s.calls && s.calls[call].Timed?
  {
    var Timed(request, approved, now) := s.calls[call];
    var live := Unexpired(s.pending, now);
    var rest := s.(pending := live, calls := s.calls - {call},
                   log := s.log + [Pruned(NoncesOf(s.pending) - NoncesOf(live))]);
    if !HasRoom(live, approved.intent.user) || !nonceDrawn then rest
    else if id in live then s  // the id loop draws again
    else
      var p := NewSession(approved, s.created, now);
      rest.(pending := live[id := p], created := s.created + 1, log := rest.log + [Admitted(id, p, request)])
  }

  /** The locked removal of `finish`, before any other check. */
  function TakeStep(s: State, call: CallId, request: FinishRequest): (t: State)
  {
    if request.session !in s.pending then s
    else
      var p := s.pending[request.session];
      s.(pending := s.pending - {request.session}, calls := s.calls[call := Taken(p, request)],
         log := s.log + [TakenByFinish(p.nonce)])
  }

  /** The rest of `finish`, at the clock of that moment. */
  function SignStep(w: World, s: State, call: CallId): (t: State)
    requires call in s.calls && s.calls[call].Taken?
  {
    var Taken(p, request) := s.calls[call];
    var done := s.(calls := s.calls - {call});
    match FinishPartial(w, p, request, s.clock)
    case None => done
    case Some(partial) => done.(log := s.log + [Released(p, request, s.clock, partial)])
  }

  /** `cancel` removes before it looks at the protocol string. */
  function CancelStep(s: State, request: CancelRequest): (t: State)
  {
    if request.session !in s.pending then s
    else s.(pending := s.pending - {request.session},
            log := s.log + [TakenByCancel(s.pending[request.session].nonce)])
  }

  /** One atomic step; a step that is not enabled changes nothing. */
  function Apply(w: World, s: State, step: Step): (t: State)
  {
    match step
    case Tick(elapsed) => s.(clock := s.clock + elapsed)
    case Validate(call, request) =>
      var approved := Approve(w.lib, w.signer, request);
      if call in s.calls || approved.None? then s
      else s.(calls := s.calls[call := Validated(request, approved.value)])
    case ReadClock(call) =>
      if call in s.calls && s.calls[call].Validated?
      then s.(calls := s.calls[call := Timed(s.calls[call].request, s.calls[call].approved, s.clock)])
      else s
    case Reserve(call, id, nonceDrawn) =>
      if call in s.calls && s.calls[call].Timed? then ReserveStep(s, call, id, nonceDrawn) else s
    case Take(call, finish) => if call in s.calls then s else TakeStep(s, call, finish)
    case Sign(call) => if call in s.calls && s.calls[call].Taken? then SignStep(w, s, call) else s
    case Cancel(cancel) => CancelStep(s, cancel)
  }

  /** The state after any interleaving of steps. */
  function Run(w: World, s: State, steps: seq<Step>): (t: State)
  {
    if steps == [] then s else Apply(w, Run(w, s, steps[..|steps| - 1]), steps[|steps| - 1])
  }
}
