/** Exactly when each thing of the attestation protocol happens, for every run, in terms of the state before and the
    document that arrived. */
module AttestationExactly {
  import opened Clock
  import opened Counting
  import opened Text
  import opened Wire
  import opened SuccessQuota
  import opened Attestation
  import opened AttestationSafety
  import opened AttestationTheorems
  import opened AttestationCompleteness
  import opened ProcessLimits

  // ---------------------------------------------------------------- approvals

  /** A document in which the holder of the JWK's key has signed exactly these bytes for this purpose. */
  predicate SignedBy(body: Document, jwk: Jwk, raw: Document)
  {
    && body.ProofDoc? && 0 < Size(body) <= 8192 && body.jwk == jwk
    && jwk.kty == "OKP" && jwk.crv == "Ed25519" && jwk.x.Canonical?
    && body.proof == Compact("spire-http-node-attestation+jws", raw, Some(jwk.x.key)) && Size(raw) <= 8192
  }

  /** Nobody else can make a signature of an honest attempt. */
  predicate CanExist(s: State, jwk: Jwk, raw: Document)
  {
    jwk.x.Canonical? && jwk.x.key.Honest? ==> (jwk.x.key.attempt, raw) in s.signed
  }

  lemma VerifiesExactly(body: Document, jwk: Jwk, raw: Document)
    ensures VerifyProof(body, jwk) == Some(raw) <==> SignedBy(body, jwk, raw)
  {
  }

  /** The node's approvals by the generation within the last minute. */
  ghost function LastMinute(s: State, gen: nat, name: string): set<int>
  {
    set k | 0 <= k < |s.approvals| && s.approvals[k].gen == gen && s.approvals[k].name == name
      && s.approvals[k].at > s.clock - 60_000_000_000
  }

  lemma AdmitsByHistory(s: State, gen: nat, name: string)
    requires Inv(s) && gen < |s.gens|
    ensures Admits(Recent(s.gens[gen], name), s.clock) <==> |LastMinute(s, gen, name)| < 6
  {
    hide Inv, Tracks, Admits;
    var h, start := TimesOf(s.approvals, gen, name), s.clock - MINUTE + 1;
    QuotaTracks(s, gen, name);
    AdmitsExactly(Recent(s.gens[gen], name), h, s.clock, s.clock);
    TracksPast(Recent(s.gens[gen], name), h, s.clock);
    assert (set i | 0 <= i < |h| && h[i] > s.clock - MINUTE) == TimesIn(h, start);
    WindowCounts(s.approvals, gen, name, start);
    NoneAhead(s);
    assert LastMinute(s, gen, name) == InWindow(s.approvals, gen, name, start);
  }

  lemma TracksPast(recent: seq<int>, h: seq<int>, now: int)
    requires Tracks(recent, h, now)
    ensures forall i :: 0 <= i < |h| ==> h[i] <= now
  {
  }

  lemma NoneAhead(s: State)
    requires Inv(s)
    ensures forall k: nat :: k < |s.approvals| ==> s.approvals[k].at <= s.clock
  {
    assert forall k: nat :: k < |s.approvals| ==> ApprovalOk(s, s.approvals[k]);
  }

  /** What the second half of a verification needs. */
  ghost predicate Approvable(s: State, x: Action)
  {
    && x.FinishVerify? && x.session < |s.sessions|
    && var a := s.sessions[x.session];
       && a.fetching && !a.closed && !x.ended
       && a.issued <= s.clock - x.late && (s.clock - x.late) / 1_000_000_000 < a.challenge.expiresAt
       && SignedBy(x.body, a.request.jwk, a.raw) && CanExist(s, a.request.jwk, a.raw)
       && |LastMinute(s, a.gen, a.node.name)| < 6
  }

  lemma DeliverableProof(s: State, body: Document, jwk: Jwk, raw: Document)
    requires SignedBy(body, jwk, raw)
    ensures Deliverable(s.signed, body) <==> CanExist(s, jwk, raw)
  {
  }

  lemma FinishApprovesExactly(s: State, x: Action)
    requires Inv(s) && x.FinishVerify?
    ensures var t := Apply(s, x);
      t.approvals == s.approvals <==> !Approvable(s, x)
    ensures Approvable(s, x) ==>
      var a := s.sessions[x.session];
      a.gen < |s.gens| && Apply(s, x).approvals == s.approvals + [ResultOf(s, x.session, x.late)]
  {
    hide Inv, VerifyProof, SignedBy, Admits, Charged, CanExist, Deliverable, LastMinute;
    if x.session < |s.sessions| {
      var a := s.sessions[x.session];
      SessionsHaveServers(s);
      VerifiesExactly(x.body, a.request.jwk, a.raw);
      AdmitsByHistory(s, a.gen, a.node.name);
      if SignedBy(x.body, a.request.jwk, a.raw) {
        DeliverableProof(s, x.body, a.request.jwk, a.raw);
      }
    }
  }

  /** In every run an approval is added exactly by the second half of a verification whose session is fetching and not
      closed, whose fetch has not ended, whose last clock check lies before the expiry, whose body is the session's
      challenge signed with the session's key, and whose node has fewer than six approvals in the last minute. It names
      that session, its node and nothing else. */
  lemma ApprovedExactly(xs: seq<Action>, x: Action)
    ensures var s, t := Run(xs), Run(xs + [x]);
      && (t.approvals == s.approvals <==> !Approvable(s, x))
      && (Approvable(s, x) ==>
            && s.sessions[x.session].gen < |s.gens|
            && var a, domain := s.sessions[x.session], s.gens[s.sessions[x.session].gen].trustDomain;
               t.approvals == s.approvals +
               [Approval(x.session, a.gen, a.node.name, "spiffe://" + domain + "/spire/agent/http_fqdn/" + a.node.name,
                         ["fqdn:" + a.node.fqdn], s.clock - x.late, s.clock)])
  {
    hide Run, Apply, Inv, Approvable;
    InvHolds(xs);
    RunMore(xs, x);
    if x.FinishVerify? {
      FinishApprovesExactly(Run(xs), x);
    } else {
      OnlyFinishApproves(Run(xs), x);
      OthersApproveNothing(Run(xs), x);
    }
  }

  lemma OthersApproveNothing(s: State, x: Action)
    requires !x.FinishVerify?
    ensures !Approvable(s, x)
  {
  }

  /** Once a session is closed, no later approval names it. */
  lemma {:induction false} ClosedNeverApproved(xs: seq<Action>, ys: seq<Action>, i: nat)
    requires i < |Run(xs).sessions| && Run(xs).sessions[i].closed
    ensures var s, t := Run(xs), Run(xs + ys);
      && i < |t.sessions| && t.sessions[i].closed && s.approvals <= t.approvals
      && forall k :: |s.approvals| <= k < |t.approvals| ==> t.approvals[k].session != i
    decreases ys
  {
    hide Run, Apply, Extends;
    if |ys| == 0 {
      assert xs + ys == xs;
    } else {
      var n := |ys| - 1;
      var before := xs + ys[..n];
      ClosedNeverApproved(xs, ys[..n], i);
      assert xs + ys == before + [ys[n]];
      ApprovedExactly(before, ys[n]);
      RunMore(before, ys[n]);
      StepExtends(Run(before), ys[n]);
      StaysClosed(Run(before), Run(xs + ys), i);
    }
  }

  lemma StaysClosed(s: State, t: State, i: nat)
    requires Extends(s, t) && i < |s.sessions| && s.sessions[i].closed
    ensures i < |t.sessions| && t.sessions[i].closed
  {
    assert SameSession(s.sessions[i], t.sessions[i]);
  }

  /** After the close of a session no approval names it, in any continuation. */
  lemma CloseEndsApproval(xs: seq<Action>, ys: seq<Action>, i: nat)
    requires i < |Run(xs).sessions|
    ensures var s, t := Run(xs), Run(xs + [MarkClosed(i)] + ys);
      forall k :: |s.approvals| <= k < |t.approvals| ==> t.approvals[k].session != i
  {
    hide Run, Approvable;
    ClosesExactly(xs, MarkClosed(i), i);
    ApprovedExactly(xs, MarkClosed(i));
    OthersApproveNothing(Run(xs), MarkClosed(i));
    ClosedNeverApproved(xs + [MarkClosed(i)], ys, i);
  }

  // ---------------------------------------------------------------- closing

  /** In every run a session is closed exactly by the first section of a close, which also starts its leaving, and goes
      out of service exactly by the second section after that. */
  lemma ClosesExactly(xs: seq<Action>, x: Action, i: nat)
    requires i < |Run(xs).sessions|
    ensures var s, t := Run(xs), Run(xs + [x]);
      && i < |t.sessions|
      && (t.sessions[i].closed <==> s.sessions[i].closed || x == MarkClosed(i))
      && (t.sessions[i].leaving <==>
            if s.sessions[i].closed then s.sessions[i].leaving && x != Leave(i) else x == MarkClosed(i))
      && (t.sessions[i].closed && !t.sessions[i].leaving <==>
            s.sessions[i].closed && (!s.sessions[i].leaving || x == Leave(i)))
  {
    hide Run;
    RunMore(xs, x);
    InvHolds(xs);
    SessionsHaveServers(Run(xs));
    LeavingIsClosed(Run(xs), i);
    CloseStep(Run(xs), x, i);
  }

  lemma LeavingIsClosed(s: State, i: nat)
    requires Inv(s) && i < |s.sessions|
    ensures s.sessions[i].leaving ==> s.sessions[i].closed
  {
    assert FlagsOk(s.sessions[i]);
  }

  lemma CloseStep(s: State, x: Action, i: nat)
    requires i < |s.sessions| && (forall j: nat :: j < |s.sessions| ==> s.sessions[j].gen < |s.gens|)
    requires s.sessions[i].leaving ==> s.sessions[i].closed
    ensures var t := Apply(s, x);
      && i < |t.sessions|
      && (t.sessions[i].closed <==> s.sessions[i].closed || x == MarkClosed(i))
      && (t.sessions[i].leaving <==>
            if s.sessions[i].closed then s.sessions[i].leaving && x != Leave(i) else x == MarkClosed(i))
  {
    hide ValidConfig, ValidFqdn, Admissible, Proven, Deliverable, Signable, Register, Charged, Admits, IssuedChallenge;
  }

  // ---------------------------------------------------------------- verification, first half

  /** A ready message for a challenge. */
  predicate ReadyFor(response: Document, id: Token)
  {
    response.ReadyDoc? && 0 < Size(response) <= 8192 && response.ready.version == 1 && response.ready.id == id
  }

  /** In every run a session is used up exactly by the first verification while it is open, and its proof is fetched
      exactly if that carries the session's own ready message before the expiry. The fetch ends with whatever comes
      back. */
  lemma FetchesExactly(xs: seq<Action>, x: Action, i: nat)
    requires i < |Run(xs).sessions|
    ensures var s, t := Run(xs), Run(xs + [x]);
      var a := s.sessions[i];
      && i < |t.sessions|
      && (t.sessions[i].verified <==> a.verified || (x.StartVerify? && x.session == i && !a.closed))
      && (!a.fetching ==>
            (t.sessions[i].fetching <==>
               && x.StartVerify? && x.session == i && !a.closed && !a.verified
               && ReadyFor(x.response, a.challenge.id) && s.clock / 1_000_000_000 < a.challenge.expiresAt))
      && (a.fetching ==>
            (t.sessions[i].fetching <==>
               !(x.FinishVerify? && x.session == i && a.issued <= s.clock - x.late && Deliverable(s.signed, x.body))))
  {
    hide Run;
    RunMore(xs, x);
    InvHolds(xs);
    SessionsHaveServers(Run(xs));
    FetchingIsVerified(Run(xs), i);
    FetchStep(Run(xs), x, i);
  }

  lemma FetchingIsVerified(s: State, i: nat)
    requires Inv(s) && i < |s.sessions|
    ensures s.sessions[i].fetching ==> s.sessions[i].verified
  {
    assert FlagsOk(s.sessions[i]);
  }

  lemma FetchStep(s: State, x: Action, i: nat)
    requires i < |s.sessions| && s.sessions[i].gen < |s.gens|
    requires s.sessions[i].fetching ==> s.sessions[i].verified
    ensures var t := Apply(s, x);
      var a := s.sessions[i];
      && i < |t.sessions|
      && (t.sessions[i].verified <==> a.verified || (x.StartVerify? && x.session == i && !a.closed))
      && (!a.fetching ==>
            (t.sessions[i].fetching <==>
               && x.StartVerify? && x.session == i && !a.closed && !a.verified
               && ReadyFor(x.response, a.challenge.id) && s.clock / 1_000_000_000 < a.challenge.expiresAt))
      && (a.fetching ==>
            (t.sessions[i].fetching <==>
               !(x.FinishVerify? && x.session == i && a.issued <= s.clock - x.late && Deliverable(s.signed, x.body))))
  {
    hide ValidConfig, ValidFqdn, Admissible, Proven, Deliverable, Signable, Register, Charged, Admits, IssuedChallenge,
      Size;
  }

  // ---------------------------------------------------------------- sessions

  /** What a request needs to be given a session by a generation. */
  ghost predicate Beginnable(s: State, x: Action)
  {
    && x.Begin? && x.gen < |s.gens| && x.payload.RequestDoc? && 0 < Size(x.payload) <= 8192
    && var r := x.payload.request;
       && r.version == 1 && r.fqdn in s.gens[x.gen].nodes
       && r.jwk.kty == "OKP" && r.jwk.crv == "Ed25519" && r.jwk.x.Canonical?
       && |ServingBy(s.sessions, x.gen)| < 32
  }

  /** The session that follows: fresh random values, the server's own names, the requester's key and 120 seconds. */
  ghost function Begun(s: State, x: Action): Session
    requires Beginnable(s, x)
  {
    var g, r, i := s.gens[x.gen], x.payload.request, |s.sessions|;
    var c := Challenge(1, Random(2 * i), Random(2 * i + 1), r.fqdn, g.trustDomain,
                       "spiffe://" + g.trustDomain + "/spire/server", Thumbprint(r.jwk),
                       (s.clock + 120_000_000_000) / 1_000_000_000);
    Session(x.gen, g.nodes[r.fqdn], r, c, ChallengeDoc(c, Marshalled), s.clock, false, false, false, false, 0)
  }

  lemma AdmissibleExactly(s: State, x: Action)
    requires Inv(s) && x.Begin? && x.gen < |s.gens|
    ensures Admissible(s.gens[x.gen], x.payload) <==> Beginnable(s, x)
  {
    hide Inv, Size, ActiveOk, ServingBy;
    ServersOk(s, x.gen);
    ActiveBound(s.gens[x.gen].active, s.sessions, x.gen);
  }

  /** In every run a session is added exactly by a well-formed request of version 1, for a registered FQDN and with an
      Ed25519 key, to a server with fewer than 32 sessions in service. */
  lemma BeganExactly(xs: seq<Action>, x: Action)
    ensures var s, t := Run(xs), Run(xs + [x]);
      && (|t.sessions| == |s.sessions| <==> !Beginnable(s, x))
      && (Beginnable(s, x) ==> t.sessions == s.sessions + [Begun(s, x)])
  {
    hide Run, Inv, Beginnable, Begun, Admissible;
    InvHolds(xs);
    RunMore(xs, x);
    BeginNeeds(Run(xs), x);
    if x.Begin? {
      BeginIsStep(Run(xs), x);
      if x.gen < |Run(xs).gens| {
        AdmissibleExactly(Run(xs), x);
        if Beginnable(Run(xs), x) {
          BegunIs(Run(xs), x);
        }
      }
    } else {
      OthersBeginNothing(Run(xs), x);
    }
  }

  lemma BeginNeeds(s: State, x: Action)
    ensures Beginnable(s, x) ==> x.Begin? && x.gen < |s.gens|
  {
  }

  lemma BegunIs(s: State, x: Action)
    requires Beginnable(s, x) && Admissible(s.gens[x.gen], x.payload)
    ensures NewSession(s.gens[x.gen], x.gen, |s.sessions|, x.payload, s.clock) == Begun(s, x)
  {
    hide Size, ServingBy;
  }

  lemma OthersBeginNothing(s: State, x: Action)
    requires !x.Begin?
    ensures |Apply(s, x).sessions| == |s.sessions|
  {
    hide ValidConfig, ValidFqdn, Proven, Deliverable, Signable, Register, Charged, Admits;
  }

  // ---------------------------------------------------------------- signatures

  /** What a pending attempt needs to sign: its own names and key, and a challenge that is valid now for at most the
      next 120 seconds. */
  ghost predicate Answerable(s: State, x: Action)
  {
    && x.Respond? && x.agent < |s.agents| && x.raw.ChallengeDoc? && 0 < Size(x.raw) <= 8192
    && var a, c := s.agents[x.agent], x.raw.challenge;
       && !a.closed && !a.responded
       && c.version == 1 && !c.id.Noise? && !c.nonce.Noise? && c.fqdn == a.fqdn && c.trustDomain == a.trustDomain
       && c.serverId == "spiffe://" + a.trustDomain + "/spire/server"
       && c.keyThumbprint == Thumbprint(Jwk("OKP", "Ed25519", Canonical(Honest(x.agent))))
       && x.reading / 1_000_000_000 < c.expiresAt <= (x.reading + 120_000_000_000) / 1_000_000_000
  }

  /** Every attempt has well-formed names. */
  ghost predicate AgentsNamed(s: State)
  {
    forall n: nat :: n < |s.agents| ==> ValidFqdn(s.agents[n].fqdn) && ValidFqdn(s.agents[n].trustDomain)
  }

  lemma AgentsNamedKept(s: State, x: Action)
    requires AgentsNamed(s)
    ensures AgentsNamed(Apply(s, x))
  {
    hide ValidConfig, ValidFqdn, Proven, Deliverable, Signable, Register, Charged, Admits, Admissible;
  }

  lemma {:induction false} AgentsNamedHolds(xs: seq<Action>)
    ensures AgentsNamed(Run(xs))
  {
    hide Apply, ValidFqdn;
    if |xs| > 0 {
      AgentsNamedHolds(xs[..|xs| - 1]);
      AgentsNamedKept(Run(xs[..|xs| - 1]), xs[|xs| - 1]);
    }
  }

  lemma SignableExactly(s: State, x: Action)
    requires AgentsNamed(s) && x.Respond? && x.agent < |s.agents|
    requires !s.agents[x.agent].closed && !s.agents[x.agent].responded
    ensures Signable(s.agents[x.agent].(responded := true), x.agent, x.raw, x.reading) <==> Answerable(s, x)
  {
    hide Size, ValidFqdn;
  }

  /** In every run a signature is added exactly by a pending attempt that answers a challenge for its own names and its
      own key inside the challenge's window. It signs the exact bytes received, once. */
  lemma SignedExactly(xs: seq<Action>, x: Action)
    ensures var s, t := Run(xs), Run(xs + [x]);
      && (t.signed == s.signed <==> !Answerable(s, x))
      && (Answerable(s, x) ==>
            && t.signed == s.signed + {(x.agent, x.raw)} && |t.agents| == |s.agents|
            && t.agents[x.agent].responded && t.agents[x.agent].published == Some(x.raw.challenge.id))
  {
    hide Run, Inv, Answerable, Signable, Apply, AgentsNamed;
    InvHolds(xs);
    AgentsNamedHolds(xs);
    RunMore(xs, x);
    var s := Run(xs);
    AnswerNeeds(s, x);
    if x.Respond? {
      RespondIsStep(s, x);
      if x.agent < |s.agents| && !s.agents[x.agent].closed && !s.agents[x.agent].responded {
        SignableExactly(s, x);
        NotYetSigned(s, x.agent, x.raw);
      }
    } else {
      OthersSignNothing(s, x);
    }
  }

  lemma AnswerNeeds(s: State, x: Action)
    ensures Answerable(s, x) ==>
      && x.Respond? && x.agent < |s.agents| && x.raw.ChallengeDoc?
      && !s.agents[x.agent].closed && !s.agents[x.agent].responded
  {
  }

  lemma RespondIsStep(s: State, x: Action)
    requires x.Respond?
    ensures Apply(s, x) == RespondStep(s, x.agent, x.raw, x.reading)
  {
  }

  lemma NotYetSigned(s: State, n: nat, raw: Document)
    requires Inv(s) && n < |s.agents| && !s.agents[n].responded
    ensures (n, raw) !in s.signed
  {
  }

  lemma OthersSignNothing(s: State, x: Action)
    requires !x.Respond?
    ensures Apply(s, x).signed == s.signed
  {
    hide ValidConfig, ValidFqdn, Proven, Deliverable, Register, Charged, Admits, Admissible;
  }

  /** In every run an attempt is used up exactly by the first challenge it is given while it is open. */
  lemma RespondsExactly(xs: seq<Action>, x: Action, n: nat)
    requires n < |Run(xs).agents|
    ensures var a, t := Run(xs).agents[n], Run(xs + [x]);
      && n < |t.agents| && (t.agents[n].closed <==> a.closed || x == CloseAgent(n))
      && (t.agents[n].responded <==> a.responded || (x.Respond? && x.agent == n && !a.closed))
  {
    hide Run, ValidConfig, ValidFqdn, Proven, Deliverable, Signable, Register, Charged, Admits, Admissible;
    RunMore(xs, x);
  }

  // ---------------------------------------------------------------- configurations

  /** A lower-case letter or a digit, by its code. */
  predicate Lower(c: char) { 97 <= c as int <= 122 || 48 <= c as int <= 57 }

  /** One letter or digit, and perhaps up to 61 letters, digits and hyphens and one more letter or digit. */
  predicate IsLabel(s: string)
  {
    || (|s| == 1 && Lower(s[0]))
    || (|s| >= 2 && Lower(s[0]) && |s[1..|s| - 1]| <= 61 && Lower(s[|s| - 1])
        && forall c :: c in s[1..|s| - 1] ==> Lower(c) || c == '-')
  }

  /** At most 253 characters: two labels or more, with a dot between them. */
  ghost predicate IsFqdn(s: string)
  {
    |s| <= 253 && exists labels :: |labels| >= 2 && Join(labels, '.') == s && forall l :: l in labels ==> IsLabel(l)
  }

  lemma LabelExactly(s: string)
    ensures ValidLabel(s) <==> IsLabel(s)
  {
    assert forall c :: Alnum(c) <==> Lower(c);
    if |s| >= 2 {
      var middle := s[1..|s| - 1];
      assert s == [s[0]] + middle + [s[|s| - 1]];
      assert forall c :: c in s <==> c == s[0] || c in middle || c == s[|s| - 1];
    } else if |s| == 1 {
      assert s == [s[0]];
    }
  }

  lemma FqdnExactly(s: string)
    ensures ValidFqdn(s) <==> IsFqdn(s)
  {
    hide ValidLabel, IsLabel;
    forall l ensures ValidLabel(l) <==> IsLabel(l) {
      LabelExactly(l);
    }
    JoinSplit(s, '.');
    if IsFqdn(s) {
      var labels :| |labels| >= 2 && Join(labels, '.') == s && forall l :: l in labels ==> IsLabel(l);
      forall l | l in labels ensures '.' !in l {
        NoDot(l);
      }
      SplitJoin(labels, '.');
    }
  }

  lemma NoDot(s: string)
    requires IsLabel(s)
    ensures '.' !in s
  {
    LabelExactly(s);
  }

  function Values(addresses: seq<Address>): seq<nat>
  {
    seq(|addresses|, i requires 0 <= i < |addresses| => addresses[i].value)
  }

  function Fqdns(nodes: map<string, Policy>): map<string, string> { map name | name in nodes :: nodes[name].fqdn }

  /** A node that a server can know: one to sixteen usable addresses, no two of them equal. */
  ghost predicate ConfigurableNode(name: string, p: Policy)
  {
    && IsLabel(name) && IsFqdn(p.fqdn) && 0 < |p.addresses| < 17
    && (forall a :: a in p.addresses ==> a.usable)
    && |Members(Values(p.addresses))| == |p.addresses|
  }

  /** A configuration that a server can be made of: at least one node, and as many FQDNs as nodes. */
  ghost predicate Configurable(c: Config)
  {
    && c.metricsOk && c.trustTransport && IsFqdn(c.trustDomain) && 0 < c.port < 65536
    && |c.nodes| > 0 && |Fqdns(c.nodes).Values| == |c.nodes|
    && forall name :: name in c.nodes ==> ConfigurableNode(name, c.nodes[name])
  }

  lemma NodeExactly(name: string, p: Policy)
    ensures ValidPolicy(name, p) <==> ConfigurableNode(name, p)
  {
    hide ValidLabel, ValidFqdn, IsLabel, IsFqdn;
    LabelExactly(name);
    FqdnExactly(p.fqdn);
    DistinctSize(Values(p.addresses));
    assert forall i :: 0 <= i < |p.addresses| ==> Values(p.addresses)[i] == p.addresses[i].value;
  }

  lemma ConfigExactly(c: Config)
    ensures ValidConfig(c) <==> Configurable(c)
  {
    hide ValidFqdn, IsFqdn, ValidPolicy, ConfigurableNode;
    FqdnExactly(c.trustDomain);
    forall name | name in c.nodes ensures ValidPolicy(name, c.nodes[name]) <==> ConfigurableNode(name, c.nodes[name]) {
      NodeExactly(name, c.nodes[name]);
    }
    InjectiveSize(Fqdns(c.nodes));
    assert Fqdns(c.nodes).Keys == c.nodes.Keys;
    assert |c.nodes| == 0 <==> c.nodes == map[];
    assert forall name :: name in c.nodes ==> Fqdns(c.nodes)[name] == c.nodes[name].fqdn;
  }

  /** In every run a server is added exactly by a configuration that passes. It starts with no session and no history,
      and knows each node under its FQDN and nothing else. */
  lemma ConfiguredExactly(xs: seq<Action>, x: Action)
    ensures var s, t := Run(xs), Run(xs + [x]);
      && (|t.gens| == |s.gens| <==> !(x.Configure? && Configurable(x.config)))
      && (x.Configure? && Configurable(x.config) ==>
            && |t.gens| == |s.gens| + 1 && t.gens[..|s.gens|] == s.gens
            && var g := t.gens[|s.gens|];
               && g.trustDomain == x.config.trustDomain && g.active == map[] && g.recent == map[]
               && (forall f :: f in g.nodes ==> g.nodes[f].name in x.config.nodes)
               && forall name :: name in x.config.nodes ==>
                    var f := x.config.nodes[name].fqdn;
                    f in g.nodes && g.nodes[f] == Node(name, f))
  {
    hide Run, Configurable, ValidConfig, Registry;
    RunMore(xs, x);
    if x.Configure? {
      ConfigExactly(x.config);
    } else {
      OnlyConfigureAdds(Run(xs), x);
    }
  }

  /** In every run an attempt is added exactly for two well-formed names, and it starts open. */
  lemma AttemptsExactly(xs: seq<Action>, x: Action)
    ensures var s, t := Run(xs), Run(xs + [x]);
      && (|t.agents| == |s.agents| <==> !(x.BeginAgent? && IsFqdn(x.fqdn) && IsFqdn(x.trustDomain)))
      && (x.BeginAgent? && IsFqdn(x.fqdn) && IsFqdn(x.trustDomain) ==>
            t.agents == s.agents + [Agent(x.fqdn, x.trustDomain, false, None, false)])
  {
    hide Run, ValidFqdn, IsFqdn, ValidConfig, Proven, Deliverable, Signable, Register, Charged, Admits, Admissible;
    RunMore(xs, x);
    if x.BeginAgent? {
      FqdnExactly(x.fqdn);
      FqdnExactly(x.trustDomain);
    }
  }
}
