/** Honest parties succeed, whatever else the system does meanwhile. */
module AttestationCompleteness {
  import opened Clock
  import opened Text
  import opened Wire
  import opened SuccessQuota
  import opened Attestation
  import opened AttestationSafety
  import opened AttestationTheorems

  // ---------------------------------------------------------------- an exchange among others

  /** Session i of generation gen, opened for an honest attempt n with challenge c. */
  datatype Exchange = Exchange(i: nat, n: nat, gen: nat, node: Node, c: Challenge)

  /** Actions that leave the session and the attempt alone. Everything else may happen: other sessions and
      attempts, new configurations, and any waiting. */
  predicate Quiet(x: Action, e: Exchange)
  {
    match x
    case Respond(n, _, _) => n != e.n
    case CloseAgent(n) => n != e.n
    case StartVerify(i, _) => i != e.i
    case FinishVerify(i, _, _, _) => i != e.i
    case MarkClosed(i) => i != e.i
    case Leave(i) => i != e.i
    case _ => true
  }

  predicate AllQuiet(ys: seq<Action>, e: Exchange) { forall y :: y in ys ==> Quiet(y, e) }

  lemma Untouched(s: State, x: Action, e: Exchange)
    requires Quiet(x, e) && e.i < |s.sessions| && e.n < |s.agents|
    ensures var t := Apply(s, x);
      && e.i < |t.sessions| && e.n < |t.agents|
      && t.sessions[e.i] == s.sessions[e.i] && t.agents[e.n] == s.agents[e.n]
  {
    hide ValidConfig, ValidFqdn, Admissible, Proven, Deliverable, Signable, Register;
  }

  lemma {:induction false} UntouchedRun(xs: seq<Action>, ys: seq<Action>, e: Exchange)
    requires AllQuiet(ys, e) && e.i < |Run(xs).sessions| && e.n < |Run(xs).agents|
    ensures var s, t := Run(xs), Run(xs + ys);
      && Extends(s, t) && e.i < |t.sessions| && e.n < |t.agents|
      && t.sessions[e.i] == s.sessions[e.i] && t.agents[e.n] == s.agents[e.n]
    decreases ys
  {
    hide Apply;
    assert (xs + ys)[..|xs|] == xs;
    RunExtends(xs + ys, |xs|);
    if |ys| == 0 {
      assert xs + ys == xs;
    } else {
      var n := |ys| - 1;
      assert (xs + ys)[..|xs + ys| - 1] == xs + ys[..n];
      UntouchedRun(xs, ys[..n], e);
      Untouched(Run(xs + ys[..n]), ys[n], e);
    }
  }

  /** The session is open, as Begin left it. */
  ghost predicate Open(s: State, e: Exchange)
  {
    && e.i < |s.sessions| && e.n < |s.agents| && e.gen < |s.gens| && s.gens[e.gen].trustDomain == e.c.trustDomain
    && var a := s.sessions[e.i];
       && a.challenge == e.c && a.raw == ChallengeDoc(e.c, Marshalled) && a.request.jwk == JwkFor(Honest(e.n))
       && a.gen == e.gen && a.node == e.node && !a.closed && a.issued <= s.clock
       && e.c.expiresAt == Unix(a.issued + CHALLENGE_TTL)
  }

  datatype Stage = Challenged | Answered | Fetching

  ghost predicate At(s: State, e: Exchange, g: Stage)
  {
    && Open(s, e)
    && match g
       case Challenged =>
         !s.sessions[e.i].verified && s.agents[e.n] == Agent(e.c.fqdn, e.c.trustDomain, false, None, false)
       case Answered => !s.sessions[e.i].verified && (e.n, ChallengeDoc(e.c, Marshalled)) in s.signed
       case Fetching => s.sessions[e.i].fetching && (e.n, ChallengeDoc(e.c, Marshalled)) in s.signed
  }

  /** Whatever quiet actions happen, the exchange stays where it is. */
  lemma StageKept(xs: seq<Action>, ys: seq<Action>, e: Exchange, g: Stage)
    requires AllQuiet(ys, e) && At(Run(xs), e, g)
    ensures At(Run(xs + ys), e, g)
    ensures Run(xs + ys).sessions[e.i].issued == Run(xs).sessions[e.i].issued && Run(xs).clock <= Run(xs + ys).clock
  {
    hide Run, AllQuiet;
    UntouchedRun(xs, ys, e);
    assert SameGeneration(Run(xs).gens[e.gen], Run(xs + ys).gens[e.gen]);
  }

  lemma RunMore(xs: seq<Action>, x: Action)
    ensures Run(xs + [x]) == Apply(Run(xs), x)
  {
    assert (xs + [x])[..|xs|] == xs;
  }

  /** The challenge that the next session of a generation will carry for attempt n. */
  function ChallengeFor(s: State, gen: nat, n: nat, fqdn: string): Challenge
    requires gen < |s.gens|
  {
    var i := |s.sessions|;
    IssuedChallenge(Random(2 * i), Random(2 * i + 1), fqdn, s.gens[gen].trustDomain, JwkFor(Honest(n)), s.clock)
  }

  function RequestOf(fqdn: string, n: nat): Document { RequestDoc(Request(1, fqdn, JwkFor(Honest(n))), Marshalled) }

  function ExchangeAt(s: State, gen: nat, n: nat, fqdn: string): Exchange
    requires gen < |s.gens| && fqdn in s.gens[gen].nodes
  {
    Exchange(|s.sessions|, n, gen, s.gens[gen].nodes[fqdn], ChallengeFor(s, gen, n, fqdn))
  }

  /** A pending attempt, a registered FQDN, a free place and a clock whose expiry times an int64 holds. */
  ghost predicate CanBegin(s: State, gen: nat, n: nat, fqdn: string)
  {
    && gen < |s.gens| && RegistryOk(s.gens[gen]) && fqdn in s.gens[gen].nodes && |s.gens[gen].active| < CAPACITY
    && n < |s.agents| && s.agents[n] == Agent(fqdn, s.gens[gen].trustDomain, false, None, false)
    && 0 <= Unix(s.clock + CHALLENGE_TTL) < Pow10(19)
  }

  lemma BeginChallenges(s: State, gen: nat, n: nat, fqdn: string)
    requires CanBegin(s, gen, n, fqdn)
    ensures var e, t := ExchangeAt(s, gen, n, fqdn), BeginStep(s, gen, RequestOf(fqdn, n));
      At(t, e, Challenged) && t.sessions[e.i].issued == s.clock && t.clock == s.clock
  {
    hide ValidFqdn, Pow10;
    HonestDocumentsFit(ChallengeFor(s, gen, n, fqdn), Honest(n));
  }

  lemma ChallengeIsGood(s: State, gen: nat, n: nat, fqdn: string)
    requires CanBegin(s, gen, n, fqdn)
    ensures var c := ChallengeFor(s, gen, n, fqdn);
      && ValidFqdn(c.fqdn) && ValidFqdn(c.trustDomain)
      && Fits(ChallengeDoc(c, Marshalled)) && Fits(SignProof(Honest(n), ChallengeDoc(c, Marshalled)))
      && Fits(ReadyDoc(Ready(1, c.id), Marshalled))
  {
    HonestDocumentsFit(ChallengeFor(s, gen, n, fqdn), Honest(n));
  }

  // ---------------------------------------------------------------- the whole exchange

  /** An honest exchange as it runs: what happens after the challenge, the agent's clock when it signs, what
      happens after that, and what happens while the proof is fetched. */
  datatype Course = Course(
    gen: nat, n: nat, fqdn: string, asked: seq<Action>, reading: int, told: seq<Action>, fetch: seq<Action>)

  function UntilAsked(xs: seq<Action>, w: Course): seq<Action> { xs + [Begin(w.gen, RequestOf(w.fqdn, w.n))] + w.asked }

  function UntilTold(xs: seq<Action>, w: Course, e: Exchange): seq<Action>
  {
    UntilAsked(xs, w) + [Respond(w.n, ChallengeDoc(e.c, Marshalled), w.reading)] + w.told
  }

  function UntilFetched(xs: seq<Action>, w: Course, e: Exchange): seq<Action>
  {
    UntilTold(xs, w, e) + [StartVerify(e.i, ReadyDoc(Ready(1, e.c.id), Marshalled))] + w.fetch
  }

  ghost predicate Undisturbed(w: Course, e: Exchange) 
  {
    AllQuiet(w.asked, e) && AllQuiet(w.told, e) && AllQuiet(w.fetch, e)
  }

  lemma ReachesAsked(xs: seq<Action>, w: Course, e: Exchange)
    requires CanBegin(Run(xs), w.gen, w.n, w.fqdn) && e == ExchangeAt(Run(xs), w.gen, w.n, w.fqdn)
      && AllQuiet(w.asked, e)
    ensures var s := Run(UntilAsked(xs, w)); At(s, e, Challenged) && s.sessions[e.i].issued == Run(xs).clock
  {
    hide Run, At, AllQuiet, CanBegin, ExchangeAt, BeginStep;
    var begin := Begin(w.gen, RequestOf(w.fqdn, w.n));
    BeginChallenges(Run(xs), w.gen, w.n, w.fqdn);
    RunMore(xs, begin);
    StageKept(xs + [begin], w.asked, e, Challenged);
  }

  lemma Signs(s: State, e: Exchange, reading: int)
    requires At(s, e, Challenged) && Signable(s.agents[e.n], e.n, ChallengeDoc(e.c, Marshalled), reading)
    ensures var t := RespondStep(s, e.n, ChallengeDoc(e.c, Marshalled), reading);
      At(t, e, Answered) && t.sessions == s.sessions
  {
    hide ValidFqdn, Size;
  }

  lemma ReachesTold(xs: seq<Action>, w: Course, e: Exchange)
    requires CanBegin(Run(xs), w.gen, w.n, w.fqdn) && e == ExchangeAt(Run(xs), w.gen, w.n, w.fqdn)
    requires AllQuiet(w.asked, e) && AllQuiet(w.told, e)
    requires Unix(Run(xs).clock) * SECOND <= w.reading < e.c.expiresAt * SECOND
    ensures var s := Run(UntilTold(xs, w, e)); At(s, e, Answered) && s.sessions[e.i].issued == Run(xs).clock
  {
    hide Run, AllQuiet, CanBegin, RespondStep, ValidFqdn, Size;
    var raw, asked := ChallengeDoc(e.c, Marshalled), UntilAsked(xs, w);
    ReachesAsked(xs, w, e);
    ChallengeIsGood(Run(xs), w.gen, w.n, w.fqdn);
    WindowIsExact(e.c, Run(xs).clock, w.reading);
    Signs(Run(asked), e, w.reading);
    RunMore(asked, Respond(w.n, raw, w.reading));
    StageKept(asked + [Respond(w.n, raw, w.reading)], w.told, e, Answered);
  }

  lemma StartsFetch(s: State, e: Exchange)
    requires At(s, e, Answered) && Fits(ReadyDoc(Ready(1, e.c.id), Marshalled)) && Unix(s.clock) < e.c.expiresAt
    ensures var t := StartVerifyStep(s, e.i, ReadyDoc(Ready(1, e.c.id), Marshalled));
      At(t, e, Fetching) && t.clock == s.clock && t.sessions[e.i].issued == s.sessions[e.i].issued
  {
    hide Size;
  }

  lemma ReachesFetched(xs: seq<Action>, w: Course, e: Exchange)
    requires CanBegin(Run(xs), w.gen, w.n, w.fqdn) && e == ExchangeAt(Run(xs), w.gen, w.n, w.fqdn) && Undisturbed(w, e)
    requires Unix(Run(xs).clock) * SECOND <= w.reading < e.c.expiresAt * SECOND
    requires Run(UntilTold(xs, w, e)).clock < e.c.expiresAt * SECOND
    ensures var s := Run(UntilFetched(xs, w, e)); At(s, e, Fetching) && s.sessions[e.i].issued == Run(xs).clock
  {
    hide Run, At, AllQuiet, CanBegin, StartVerifyStep, ValidFqdn, Fits;
    var told, ready := UntilTold(xs, w, e), StartVerify(e.i, ReadyDoc(Ready(1, e.c.id), Marshalled));
    ReachesTold(xs, w, e);
    ChallengeIsGood(Run(xs), w.gen, w.n, w.fqdn);
    UnixLaws(Run(told).clock, 0);
    StartsFetch(Run(told), e);
    RunMore(told, ready);
    StageKept(told + [ready], w.fetch, e, Fetching);
  }

  lemma Accepts(s: State, e: Exchange, late: nat)
    requires At(s, e, Fetching) && s.sessions[e.i].issued <= s.clock - late && Unix(s.clock - late) < e.c.expiresAt
    requires VerifyProof(SignProof(Honest(e.n), ChallengeDoc(e.c, Marshalled)), JwkFor(Honest(e.n))) ==
      Some(ChallengeDoc(e.c, Marshalled))
    requires Admits(Recent(s.gens[e.gen], e.node.name), s.clock)
    ensures FinishVerifyStep(s, e.i, SignProof(Honest(e.n), ChallengeDoc(e.c, Marshalled)), false, late).approvals ==
      s.approvals
        + [Approval(e.i, e.gen, e.node.name, AgentId(e.c.trustDomain, e.node.name), ["fqdn:" + e.node.fqdn],
          s.clock - late, s.clock)]
  {
    hide VerifyProof, Admits, Charged;
  }

  /** Honest completeness, among anything else that happens. Suppose a pending honest attempt on a registered FQDN
      begins in any reachable state with a free place; the agent signs while its own clock is in the challenge's
      window; the ready message and the fetched proof reach the server before expiry; and there is quota at the
      charge. Then whatever other actions happen in between, the exchange ends in approval under the node's
      Agent ID. */
  lemma HonestRunApproved(xs: seq<Action>, w: Course, e: Exchange, late: nat)
    requires CanBegin(Run(xs), w.gen, w.n, w.fqdn) && e == ExchangeAt(Run(xs), w.gen, w.n, w.fqdn) && Undisturbed(w, e)
    requires Unix(Run(xs).clock) * SECOND <= w.reading < e.c.expiresAt * SECOND
    requires Run(UntilTold(xs, w, e)).clock <= Run(UntilFetched(xs, w, e)).clock - late < e.c.expiresAt * SECOND
    requires w.gen < |Run(UntilFetched(xs, w, e)).gens|
    requires var s := Run(UntilFetched(xs, w, e)); Admits(Recent(s.gens[w.gen], e.node.name), s.clock)
    ensures var s := Run(UntilFetched(xs, w, e));
      Run(UntilFetched(xs, w, e)
        + [FinishVerify(e.i, SignProof(Honest(w.n), ChallengeDoc(e.c, Marshalled)), false, late)]).approvals ==
      s.approvals
        + [Approval(e.i, w.gen, e.node.name, AgentId(e.c.trustDomain, e.node.name), ["fqdn:" + e.node.fqdn],
          s.clock - late, s.clock)]
  {
    hide Run, At, AllQuiet, Undisturbed, CanBegin, FinishVerifyStep, ValidFqdn, Fits, VerifyProof, UntilTold,
      UntilFetched;
    var fetched, proof := UntilFetched(xs, w, e), SignProof(Honest(w.n), ChallengeDoc(e.c, Marshalled));
    var s := Run(fetched);
    ReachesFetched(xs, w, e);
    ClockRuns(xs, w, e);
    ChallengeIsGood(Run(xs), w.gen, w.n, w.fqdn);
    SmallEnough(ChallengeDoc(e.c, Marshalled));
    ProofRoundTrip(Honest(w.n), ChallengeDoc(e.c, Marshalled), JwkFor(Honest(w.n)));
    UnixLaws(s.clock - late, 0);
    Accepts(s, e, late);
    RunMore(fetched, FinishVerify(e.i, proof, false, late));
  }

  lemma SmallEnough(d: Document)
    requires Fits(d)
    ensures Size(d) <= MAX_DOCUMENT
  {
  }

  /** No clock reading of the exchange comes before the challenge was issued. */
  lemma ClockRuns(xs: seq<Action>, w: Course, e: Exchange)
    ensures Run(xs).clock <= Run(UntilTold(xs, w, e)).clock
  {
    hide Run;
    var told := UntilTold(xs, w, e);
    assert told[..|xs|] == xs;
    RunExtends(told, |xs|);
  }
}
