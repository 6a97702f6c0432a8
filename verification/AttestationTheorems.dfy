/** The promises of the attestation protocol, for every run. */
module AttestationTheorems {
  import opened Clock
  import opened Text
  import opened Wire
  import opened SuccessQuota
  import opened Attestation
  import opened AttestationSafety

  // ---------------------------------------------------------------- agreement

  /** The honest attempt whose key a session was opened with, if any. */
  function HonestOwner(a: Session): Option<nat>
  {
    match KeyOf(a.request.jwk)
    case Some(Honest(n)) => Some(n)
    case _ => None
  }

  /** An approval names the one node registered for the session's FQDN. If the session was opened
      with an honest attempt's key, that attempt runs on exactly that FQDN and trust domain, and the
      one document it ever signed is this session's challenge, byte for byte. */
  ghost predicate Agreed(s: State, p: Approval)
  {
    && p.session < |s.sessions| && p.gen < |s.gens|
    && var a, g := s.sessions[p.session], s.gens[p.gen];
       && a.gen == p.gen && a.request.fqdn in g.nodes && g.nodes[a.request.fqdn] == Node(p.name, a.request.fqdn)
       && (forall f :: f in g.nodes && g.nodes[f].name == p.name ==> f == a.request.fqdn)
       && p.agentId == AgentId(g.trustDomain, p.name) && p.selectors == ["fqdn:" + a.request.fqdn]
       && match HonestOwner(a)
          case None => true
          case Some(n) =>
            && n < |s.agents| && s.agents[n].fqdn == a.request.fqdn && s.agents[n].trustDomain == g.trustDomain
            && (n, a.raw) in s.signed
            && forall q :: q in s.signed && q.0 == n ==> q.1 == a.raw
  }

  lemma ApprovalAgrees(s: State, k: nat)
    requires Inv(s) && k < |s.approvals|
    ensures Agreed(s, s.approvals[k])
  {
    var p := s.approvals[k];
    assert ApprovalOk(s, p);
    var a, g := s.sessions[p.session], s.gens[p.gen];
    assert Issued(a, p.session, g) && RegistryOk(g);
    match HonestOwner(a) {
      case Some(n) => assert Matches(s.agents[n], n, a.raw);
      case None =>
    }
  }

  /** Injective agreement: every approval agrees with its session and honest attempt; no session is
      approved twice, and no honest attempt is the key behind two approvals. */
  lemma InjectiveAgreement(xs: seq<Action>)
    ensures var s := Run(xs);
      && (forall k: nat :: k < |s.approvals| ==> Agreed(s, s.approvals[k]))
      && forall j: nat, k: nat :: j < k < |s.approvals| ==>
           var a, b := s.sessions[s.approvals[j].session], s.sessions[s.approvals[k].session];
           s.approvals[j].session != s.approvals[k].session
             && (HonestOwner(a).Some? ==> HonestOwner(a) != HonestOwner(b))
  {
    hide Run, Inv;
    var s := Run(xs);
    InvHolds(xs);
    forall k: nat | k < |s.approvals| ensures Agreed(s, s.approvals[k]) {
      ApprovalAgrees(s, k);
    }
    forall j: nat, k: nat | j < k < |s.approvals|
      ensures var a, b := s.sessions[s.approvals[j].session], s.sessions[s.approvals[k].session];
        s.approvals[j].session != s.approvals[k].session && (HonestOwner(a).Some? ==> HonestOwner(a) != HonestOwner(b))
    {
      OneApprovalPerAttempt(s, j, k);
    }
  }

  lemma OneApprovalPerAttempt(s: State, j: nat, k: nat)
    requires Inv(s) && j < k < |s.approvals|
    requires Agreed(s, s.approvals[j]) && Agreed(s, s.approvals[k])
    ensures s.approvals[j].session != s.approvals[k].session
    ensures var a, b := s.sessions[s.approvals[j].session], s.sessions[s.approvals[k].session];
      HonestOwner(a).Some? ==> HonestOwner(a) != HonestOwner(b)
  {
    var m, n := s.approvals[j].session, s.approvals[k].session;
    var a, b := s.sessions[m], s.sessions[n];
    assert m != n;
    assert Issued(a, m, s.gens[a.gen]) && Issued(b, n, s.gens[b.gen]);
    assert a.raw != b.raw;
  }

  // ---------------------------------------------------------------- conservation

  /** In every interleaving of the two Close sections with everything else: a generation serves at
      most 32 sessions; its active map lists exactly its sessions in service; each session leaves at
      most once; and each node's pending gauge is its number of sessions in service, over all
      generations. */
  lemma SessionConservation(xs: seq<Action>)
    ensures var s := Run(xs);
      && (forall g: nat :: g < |s.gens| ==> ActiveOk(s.gens[g].active, s.sessions, g))
      && (forall i: nat :: i < |s.sessions| ==> s.sessions[i].left == if InService(s.sessions[i]) then 0 else 1)
      && forall name :: Pending(s.gauge, name) == |Serving(s.sessions, name)|
  {
    InvHolds(xs);
    assert forall i: nat :: i < |Run(xs).sessions| ==> FlagsOk(Run(xs).sessions[i]);
  }

  // ---------------------------------------------------------------- bounded success

  /** No approval passes its last expiry check before its challenge was issued or at any time from 120 seconds
      after that. */
  lemma BoundedSuccess(xs: seq<Action>)
    ensures var s := Run(xs);
      forall k: nat :: k < |s.approvals| ==>
        && s.approvals[k].session < |s.sessions|
        && var a := s.sessions[s.approvals[k].session];
           && a.issued <= s.approvals[k].checked < a.challenge.expiresAt * SECOND <= a.issued + CHALLENGE_TTL
           && s.approvals[k].checked <= s.approvals[k].at
  {
    var s := Run(xs);
    InvHolds(xs);
    forall k: nat | k < |s.approvals|
      ensures s.approvals[k].session < |s.sessions|
      ensures var a := s.sessions[s.approvals[k].session];
           && a.issued <= s.approvals[k].checked < a.challenge.expiresAt * SECOND <= a.issued + CHALLENGE_TTL
           && s.approvals[k].checked <= s.approvals[k].at
    {
      var p := s.approvals[k];
      assert ApprovalOk(s, p);
      var a := s.sessions[p.session];
      assert Issued(a, p.session, s.gens[a.gen]);
      UnixLaws(p.checked, 0);
      UnixLaws(a.issued, 120);
      UnixLaws(a.issued, 0);
    }
  }

  // ---------------------------------------------------------------- quota

  /** The approvals of a node by one generation inside [start, start + 60 s). */
  ghost function InWindow(ps: seq<Approval>, gen: nat, name: string, start: int): set<int>
  {
    set k | 0 <= k < |ps| && ps[k].gen == gen && ps[k].name == name && start <= ps[k].at < start + MINUTE
  }

  ghost function TimesIn(h: seq<int>, start: int): set<int>
  {
    set i | 0 <= i < |h| && start <= h[i] < start + MINUTE
  }

  lemma {:induction false} WindowCounts(ps: seq<Approval>, gen: nat, name: string, start: int)
    ensures |InWindow(ps, gen, name, start)| == |TimesIn(TimesOf(ps, gen, name), start)|
  {
    if |ps| > 0 {
      var n := |ps| - 1;
      var front := ps[..n];
      WindowCounts(front, gen, name, start);
      WindowStep(front, ps[n], gen, name, start);
      TimesStep(TimesOf(front, gen, name), ps[n].at, start);
      assert ps == front + [ps[n]];
    }
  }

  lemma WindowStep(front: seq<Approval>, p: Approval, gen: nat, name: string, start: int)
    ensures |InWindow(front + [p], gen, name, start)| == |InWindow(front, gen, name, start)| +
      if p.gen == gen && p.name == name && start <= p.at < start + MINUTE then 1 else 0
  {
    var ps, n := front + [p], |front|;
    assert InWindow(ps, gen, name, start) ==
      if p.gen == gen && p.name == name && start <= p.at < start + MINUTE
      then InWindow(front, gen, name, start) + {n} else InWindow(front, gen, name, start);
  }

  lemma TimesStep(h: seq<int>, at: int, start: int)
    ensures |TimesIn(h + [at], start)| == |TimesIn(h, start)| + if start <= at < start + MINUTE then 1 else 0
  {
    assert TimesIn(h + [at], start) == if start <= at < start + MINUTE then TimesIn(h, start) + {|h|}
      else TimesIn(h, start);
  }

  /** Every half-open minute holds at most six approvals of a node by one server generation. */
  lemma SlidingQuota(xs: seq<Action>, gen: nat, name: string, start: int)
    requires gen < |Run(xs).gens|
    ensures |InWindow(Run(xs).approvals, gen, name, start)| <= QUOTA
  {
    var s := Run(xs);
    InvHolds(xs);
    assert Tracks(Recent(s.gens[gen], name), TimesOf(s.approvals, gen, name), s.clock);
    WindowHolds(TimesOf(s.approvals, gen, name), start);
    WindowCounts(s.approvals, gen, name, start);
  }
}
