/** `ArkSigner` itself: one mutable map of pending sessions and the three calls on it. */
module ArkSigner {
  import opened ByteStrings
  import opened Outcomes
  import opened Approval
  import opened Sessions
  import opened SessionSafety
  import opened Release

  lemma NoneCounted<T>(held: set<T>, ids: set<T>)
    requires held <= ids
    ensures |held - ids| == 0
  {
    assert held - ids == {};
  }

  lemma OneFewer<T>(held: set<T>, ids: set<T>, id: T)
    requires id in ids
    ensures |held - (ids - {id})| == |held - ids| + (if id in held then 1 else 0)
  {
    assert held - (ids - {id}) == (held - ids) + (if id in held then {id} else {});
  }

  class ArkSigner {
    const world: World
    var pending: map<SessionId, Pending>
    /** How many secret nonces the generator has produced. */
    var created: nat

    constructor (world: World)
      ensures pending == map[] && created == 0 && this.world == world
    {
      this.world, pending, created := world, map[], 0;
    }

    /** `retain`, one session at a time. */
    method Retain(now: nat)
      modifies this`pending
      ensures pending == Unexpired(old(pending), now)
    {
      var ids := pending.Keys;
      while ids != {}
        invariant forall id :: id in pending ==> id in old(pending) && pending[id] == old(pending)[id]
        invariant forall id :: id in old(pending) && (id in ids || old(pending)[id].expires > now) ==> id in pending
        invariant forall id :: id in pending && id !in ids ==> pending[id].expires > now
        decreases ids
      {
        var id :| id in ids;
        if id in pending && pending[id].expires <= now {
          pending := pending - {id};
        }
        ids := ids - {id};
      }
    }

    /** The filtered count of one wallet's sessions. */
    method CountHeld(wallet: Key) returns (n: nat)
      ensures n == |HeldBy(pending, wallet)|
    {
      n := 0;
      var ids := pending.Keys;
      ghost var held := HeldBy(pending, wallet);
      assert forall id :: id in pending ==> (id in held <==> pending[id].intent.user == wallet);
      assert held <= ids;
      hide HeldBy;
      NoneCounted(held, ids);
      while ids != {}
        invariant ids <= pending.Keys
        invariant n == |held - ids|
        invariant ids == {} ==> held - ids == held
        decreases ids
      {
        var id :| id in ids;
        if pending[id].intent.user == wallet {
          n := n + 1;
        }
        OneFewer(held, ids, id);
        ids := ids - {id};
      }
    }

    /** The id loop: the first draw of the generator that is not in use. */
    method DrawId(draws: seq<SessionId>) returns (id: SessionId)
      requires exists i :: 0 <= i < |draws| && draws[i] !in pending
      ensures id !in pending && id in draws
    {
      var i := 0;
      while draws[i] in pending
        invariant 0 <= i < |draws|
        invariant forall j :: 0 <= j < i ==> draws[j] in pending
        decreases |draws| - i
      {
        i := i + 1;
      }
      id := draws[i];
    }

    /**
      `prepare`, at a clock reading and with the generator's draws. An
      unjustified request touches nothing; a rejected one only drops expired
      sessions; an admitted one adds exactly one session under an unused id.
     */
    method Prepare(request: PrepareRequest, now: nat, draws: seq<SessionId>, nonceDrawn: bool)
      returns (r: Option<SessionId>)
      requires exists i :: 0 <= i < |draws| && draws[i] !in Unexpired(pending, now)
      modifies this
      ensures (forall a :: !Justified(world.lib, world.signer, request, a)) ==>
        r.None? && pending == old(pending) && created == old(created)
      ensures forall a :: Justified(world.lib, world.signer, request, a) ==>
        var live := Unexpired(old(pending), now);
        if nonceDrawn && HasRoom(live, a.intent.user)
        then && r.Some? && r.value !in live && r.value in draws
             && pending == live[r.value := NewSession(a, old(created), now)]
             && created == old(created) + 1
        else r.None? && pending == live && created == old(created)
    {
      hide Approve, Justified, Unexpired, HeldBy, NewSession;
      var approved := Approve(world.lib, world.signer, request);
      forall a ensures approved == Some(a) <==> Justified(world.lib, world.signer, request, a) {
        ApprovalIsExact(world.lib, world.signer, request, a);
      }
      if approved.None? { return None; }
      assert Justified(world.lib, world.signer, request, approved.value);
      Retain(now);
      if |pending| >= MAX_PENDING_SESSIONS { return None; }
      var held := CountHeld(approved.value.intent.user);
      if held >= MAX_SESSIONS_PER_USER { return None; }
      if !nonceDrawn { return None; }
      var nonce := created;
      created := created + 1;
      var id := DrawId(draws);
      pending := pending[id := NewSession(approved.value, nonce, now)];
      r := Some(id);
    }

    /**
      `finish`: the session is gone whatever the outcome, and a partial is
      released exactly when the finish deserves it.
     */
    method Finish(request: FinishRequest, now: nat) returns (r: Option<Bytes>)
      modifies this`pending
      ensures pending == old(pending) - {request.session}
      ensures forall partial :: r == Some(partial) <==>
        request.session in old(pending) && Deserves(world, old(pending)[request.session], request, now, partial)
    {
      hide FinishPartial, Deserves;
      if request.session !in pending { return None; }
      var session := pending[request.session];
      pending := pending - {request.session};
      r := CheckAndSign(session, request, now);
      forall partial ensures r == Some(partial) <==> Deserves(world, session, request, now, partial) {
        ReleaseIsExact(world, session, request, now, partial);
      }
    }

    /** The checks and the signature, after the lock is released. */
    method CheckAndSign(p: Pending, request: FinishRequest, now: nat) returns (r: Option<Bytes>)
      ensures r == FinishPartial(world, p, request, now)
    {
      if request.protocol != SIGNING_PROTOCOL { return None; }
      if p.expires <= now { return None; }
      var serverNonce: Option<Bytes> := None;
      if request.serverNonce.Some? {
        serverNonce := world.musig.parseNonce(request.serverNonce.value);
        if serverNonce.None? { return None; }
      }
      var serverPartial: Option<Bytes> := None;
      if request.serverPartial.Some? {
        serverPartial := world.musig.parsePartial(request.serverPartial.value);
        if serverPartial.None? { return None; }
      }
      if p.intent.server.None? && serverPartial.Some? { return None; }
      var session := world.musig.session(p.intent, p.userNonce, world.musig.publicNonce(p.nonce), serverNonce);
      if session.None? { return None; }
      if serverPartial.Some? && !world.musig.verifyServer(session.value, serverPartial.value) { return None; }
      var secret := world.lib.derivePrivate(world.signer.root, p.programId);
      if secret.None? { return None; }
      r := world.musig.sign(p.nonce, secret.value, session.value);
    }

    /** `cancel`: the session is gone even when the protocol string is wrong. */
    method Cancel(request: CancelRequest) returns (ok: bool)
      modifies this`pending
      ensures pending == old(pending) - {request.session}
      ensures ok <==> request.protocol == SIGNING_PROTOCOL && request.session in old(pending)
    {
      var removed := request.session in pending;
      pending := pending - {request.session};
      ok := request.protocol == SIGNING_PROTOCOL && removed;
    }
  }

  /**
    The calls are runs of the transition system: without interference, a
    prepare is its validation, clock reading and reservation; a finish is its
    removal and its signature.
   */
  lemma PrepareIsThreeSteps(w: World, s: State, call: CallId, request: PrepareRequest, id: SessionId, nonceDrawn: bool)
    requires call !in s.calls && id !in Unexpired(s.pending, s.clock)
    ensures var t := Run(w, s, [Validate(call, request), ReadClock(call), Reserve(call, id, nonceDrawn)]);
      match Approve(w.lib, w.signer, request)
      case None => t == s
      case Some(approved) =>
        var live := Unexpired(s.pending, s.clock);
        var p := NewSession(approved, s.created, s.clock);
        var pruned := s.log + [Pruned(NoncesOf(s.pending) - NoncesOf(live))];
        && t.calls == s.calls
        && if nonceDrawn && HasRoom(live, approved.intent.user)
           then t.pending == live[id := p] && t.created == s.created + 1 && t.log == pruned + [Admitted(id, p, request)]
           else t.pending == live && t.created == s.created && t.log == pruned
  {
    hide Approve, Unexpired, HasRoom, NoncesOf, NewSession;
    ThreeSteps(w, s, Validate(call, request), ReadClock(call), Reserve(call, id, nonceDrawn));
  }

  lemma FinishIsTwoSteps(w: World, s: State, call: CallId, request: FinishRequest)
    requires call !in s.calls && request.session in s.pending
    ensures var t := Run(w, s, [Take(call, request), Sign(call)]);
      var partial := FinishPartial(w, s.pending[request.session], request, s.clock);
      && t.pending == s.pending - {request.session} && t.calls == s.calls
      && var taken := TakenByFinish(s.pending[request.session].nonce);
      t.log == s.log + match partial
        case None => [taken]
        case Some(bytes) => [taken, Released(s.pending[request.session], request, s.clock, bytes)]
  {
    hide FinishPartial;
    TwoSteps(w, s, Take(call, request), Sign(call));
    var middle := Apply(w, s, Take(call, request));
    assert middle.calls - {call} == s.calls;
  }

  /**
    Sessions are usable: from any state with room, an approved prepare followed,
    within the lifetime, by a finish naming its session releases exactly the
    partial that the finish data deserves; expiry does not interfere.
   */
  lemma PrepareThenFinishReleases(
    w: World, s: State, call: CallId, request: PrepareRequest, approved: Approved, id: SessionId,
    elapsed: nat, finish: FinishRequest)
    requires call !in s.calls && Justified(w.lib, w.signer, request, approved)
    requires id !in Unexpired(s.pending, s.clock) && HasRoom(Unexpired(s.pending, s.clock), approved.intent.user)
    requires elapsed < 120_000_000_000 && finish.session == id
    ensures var p := NewSession(approved, s.created, s.clock);
      var live := Unexpired(s.pending, s.clock);
      var t := Run(w, s, [Validate(call, request), ReadClock(call), Reserve(call, id, true)]
                         + [Tick(elapsed)] + [Take(call, finish), Sign(call)]);
      var taken := s.log + [Pruned(NoncesOf(s.pending) - NoncesOf(live)), Admitted(id, p, request), TakenByFinish(p.nonce)];
      && t.pending == live && t.calls == s.calls
      && (forall partial :: Deserves(w, p, finish, s.clock, partial) <==>
                            t.log == taken + [Released(p, finish, s.clock + elapsed, partial)])
      && ((forall partial :: !Deserves(w, p, finish, s.clock, partial)) <==> t.log == taken)
  {
    hide Approve, Justified, Unexpired, HasRoom, Run, FinishPartial, NoncesOf, Deserves;
    ApprovalIsExact(w.lib, w.signer, request, approved);
    var prepare := [Validate(call, request), ReadClock(call), Reserve(call, id, true)];
    var p := NewSession(approved, s.created, s.clock);
    PrepareIsThreeSteps(w, s, call, request, id, true);
    var reserved := Run(w, s, prepare);
    RunsCompose(w, s, prepare, [Tick(elapsed)]);
    OneStep(w, reserved, Tick(elapsed));
    var waited := Run(w, s, prepare + [Tick(elapsed)]);
    RunsCompose(w, s, prepare + [Tick(elapsed)], [Take(call, finish), Sign(call)]);
    PreparingTakesNoTime(w, s, call, request, id);
    FinishIsTwoSteps(w, waited, call, finish);
    WithinLifetime(w, p, finish, s.clock, elapsed);
    forall partial ensures FinishPartial(w, p, finish, s.clock) == Some(partial) <==> Deserves(w, p, finish, s.clock, partial) {
      ReleaseIsExact(w, p, finish, s.clock, partial);
    }
    var live := Unexpired(s.pending, s.clock);
    var taken := s.log + [Pruned(NoncesOf(s.pending) - NoncesOf(live)), Admitted(id, p, request), TakenByFinish(p.nonce)];
    var t := Run(w, s, prepare + [Tick(elapsed)] + [Take(call, finish), Sign(call)]);
    assert waited.log + [TakenByFinish(p.nonce)] == taken;
    var deserved := FinishPartial(w, p, finish, s.clock);
    LastEntryTells(taken, t.log, deserved, (partial: Bytes) => Released(p, finish, s.clock + elapsed, partial));
  }

  /** A log with at most one more entry tells which entry it is. */
  lemma LastEntryTells(before: seq<Event>, after: seq<Event>, entry: Option<Bytes>, event: Bytes -> Event)
    requires after == before + match entry case None => [] case Some(b) => [event(b)]
    requires forall a, b :: event(a) == event(b) ==> a == b
    ensures entry.None? <==> after == before
    ensures forall b :: entry == Some(b) <==> after == before + [event(b)]
  {
    forall b | after == before + [event(b)] ensures entry == Some(b) {
      assert |after| == |before| + 1 && after[|before|] == event(b);
    }
  }

  /** An uninterrupted cancel is one step: whatever is named leaves the map and is logged. */
  lemma CancelIsOneStep(w: World, s: State, request: CancelRequest)
    ensures var t := Run(w, s, [Cancel(request)]);
      && t.pending == s.pending - {request.session} && t.calls == s.calls && t.created == s.created
      && t.log == s.log + (if request.session in s.pending then [TakenByCancel(s.pending[request.session].nonce)] else [])
  {
    OneStep(w, s, Cancel(request));
  }

  lemma OneStep(w: World, s: State, a: Step)
    ensures Run(w, s, [a]) == Apply(w, s, a)
  {
    hide Apply;
    assert [a][..0] == [];
  }

  lemma PreparingTakesNoTime(w: World, s: State, call: CallId, request: PrepareRequest, id: SessionId)
    ensures Run(w, s, [Validate(call, request), ReadClock(call), Reserve(call, id, true)]).clock == s.clock
  {
    hide Approve, Unexpired, HasRoom, NoncesOf, NewSession;
    ThreeSteps(w, s, Validate(call, request), ReadClock(call), Reserve(call, id, true));
  }

  lemma WithinLifetime(w: World, p: Pending, request: FinishRequest, start: nat, elapsed: nat)
    requires p.expires == start + SESSION_LIFETIME && elapsed < SESSION_LIFETIME
    ensures FinishPartial(w, p, request, start + elapsed) == FinishPartial(w, p, request, start)
  {}

  lemma TwoSteps(w: World, s: State, a: Step, b: Step)
    ensures Run(w, s, [a, b]) == Apply(w, Apply(w, s, a), b)
  {
    hide Apply;
    assert [a, b][..1] == [a] && [a][..0] == [];
    assert Run(w, s, [a]) == Apply(w, s, a);
  }

  lemma ThreeSteps(w: World, s: State, a: Step, b: Step, c: Step)
    ensures Run(w, s, [a, b, c]) == Apply(w, Apply(w, Apply(w, s, a), b), c)
  {
    hide Apply;
    TwoSteps(w, s, a, b);
    assert [a, b, c][..2] == [a, b];
  }
}
