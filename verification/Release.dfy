/** What `finish` releases (src/ark_signer.rs), said without its control flow. */
module Release {
  import opened ByteStrings
  import opened Outcomes
  import opened Approval
  import opened Sessions

  /** An optional text was read: absent stays absent, present must parse. */
  predicate ReadsAs(parse: string -> Option<Bytes>, text: Option<string>, value: Option<Bytes>)
  {
    match text
    case None => value == None
    case Some(t) => value.Some? && parse(t) == value
  }

  /** All that went into one released partial. */
  datatype Grounds = Grounds(serverNonce: Option<Bytes>, share: Option<Bytes>, session: Bytes, secret: Bytes)

  /** These grounds entitle the finish of this session, at this time, to this partial. */
  predicate Entitled(w: World, p: Pending, request: FinishRequest, now: nat, g: Grounds, partial: Bytes)
  {
    && request.protocol == SIGNING_PROTOCOL
    && now < p.expires
    && ReadsAs(w.musig.parseNonce, request.serverNonce, g.serverNonce)
    && ReadsAs(w.musig.parsePartial, request.serverPartial, g.share)
    && w.musig.session(p.intent, p.userNonce, w.musig.publicNonce(p.nonce), g.serverNonce) == Some(g.session)
    && (g.share.Some? ==> p.intent.server.Some? && w.musig.verifyServer(g.session, g.share.value))
    && w.lib.derivePrivate(w.signer.root, p.programId) == Some(g.secret)
    && w.musig.sign(p.nonce, g.secret, g.session) == Some(partial)
  }

  ghost predicate Deserves(w: World, p: Pending, request: FinishRequest, now: nat, partial: Bytes)
  {
    exists g :: Entitled(w, p, request, now, g, partial)
  }

  /** A partial is released exactly when some grounds entitle to it. */
  lemma ReleaseIsExact(w: World, p: Pending, request: FinishRequest, now: nat, partial: Bytes)
    ensures FinishPartial(w, p, request, now) == Some(partial) <==> Deserves(w, p, request, now, partial)
  {
    if FinishPartial(w, p, request, now) == Some(partial) {
      var _ := GroundsOf(w, p, request, now, partial);
    }
  }

  lemma GroundsOf(w: World, p: Pending, request: FinishRequest, now: nat, partial: Bytes) returns (g: Grounds)
    requires FinishPartial(w, p, request, now) == Some(partial)
    ensures Entitled(w, p, request, now, g, partial)
  {
    var serverNonce := if request.serverNonce.Some? then w.musig.parseNonce(request.serverNonce.value) else None;
    var share := if request.serverPartial.Some? then w.musig.parsePartial(request.serverPartial.value) else None;
    var session := w.musig.session(p.intent, p.userNonce, w.musig.publicNonce(p.nonce), serverNonce).value;
    g := Grounds(serverNonce, share, session, w.lib.derivePrivate(w.signer.root, p.programId).value);
  }

  /** The grounds are unique, so at most one partial is deserved. */
  lemma GroundsAreUnique(w: World, p: Pending, request: FinishRequest, now: nat, g: Grounds, h: Grounds, a: Bytes, b: Bytes)
    requires Entitled(w, p, request, now, g, a) && Entitled(w, p, request, now, h, b)
    ensures g == h && a == b
  {}

  /** A server share that does not parse, has no server, or fails against this very session releases nothing. */
  lemma UnverifiedShareReleasesNothing(w: World, p: Pending, request: FinishRequest, now: nat)
    requires request.serverPartial.Some?
    requires forall share, serverNonce, session ::
      && w.musig.parsePartial(request.serverPartial.value) == Some(share)
      && ReadsAs(w.musig.parseNonce, request.serverNonce, serverNonce)
      && w.musig.session(p.intent, p.userNonce, w.musig.publicNonce(p.nonce), serverNonce) == Some(session)
      && p.intent.server.Some?
      ==> !w.musig.verifyServer(session, share)
    ensures FinishPartial(w, p, request, now) == None
  {
    hide FinishPartial;
    var released := FinishPartial(w, p, request, now);
    if released.Some? {
      var _ := GroundsOf(w, p, request, now, released.value);
    }
  }
}
