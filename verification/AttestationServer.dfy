/** The server plugin and an agent attempt as objects. Each method is one locked section of the
    source and is proved to take exactly the step of the transition system. */
module AttestationServer {
  import opened Clock
  import opened Text
  import opened Wire
  import opened SuccessQuota
  import opened Attestation
  import opened AttestationExactly

  datatype Reason =
    | InvalidConfig | InvalidPayload | UnknownNode | InvalidKey | CapacityReached
    | SessionEnded | InvalidResponse | Expired | InvalidProof | RateLimit
    | NotPending | InvalidChallenge | PublishFailed

  datatype Outcome<T> = Success(value: T) | Failure(reason: Reason)

  /** nodes is the registry of the policies handled so far, all of them good. */
  ghost predicate Built(table: map<string, Policy>, done: set<string>, nodes: map<string, Node>)
    requires done <= table.Keys
  {
    && (forall n :: n in done ==> ValidPolicy(n, table[n]))
    && (forall n :: n in done ==> table[n].fqdn in nodes && nodes[table[n].fqdn] == Node(n, table[n].fqdn))
    && forall f :: f in nodes ==> nodes[f].name in done && table[nodes[f].name].fqdn == f
  }

  lemma BuiltAdd(table: map<string, Policy>, done: set<string>, nodes: map<string, Node>, name: string)
    requires done <= table.Keys && Built(table, done, nodes) && name in table.Keys && name !in done
    requires ValidPolicy(name, table[name]) && table[name].fqdn !in nodes
    ensures Built(table, done + {name}, nodes[table[name].fqdn := Node(name, table[name].fqdn)])
  {
    hide ValidPolicy;
  }

  lemma BuiltAll(c: Config, nodes: map<string, Node>)
    requires c.metricsOk && c.trustTransport && ValidFqdn(c.trustDomain) && 1 <= c.port <= 65535 && |c.nodes| != 0
    requires Built(c.nodes, c.nodes.Keys, nodes)
    ensures ValidConfig(c) && nodes == Registry(c)
  {
    hide ValidPolicy, ValidFqdn;
    forall m, n | m in c.nodes && n in c.nodes && m != n ensures c.nodes[m].fqdn != c.nodes[n].fqdn {
      assert nodes[c.nodes[m].fqdn] == Node(m, c.nodes[m].fqdn);
    }
  }

  lemma EmptyDomain(c: Config)
    ensures c.trustDomain == "" ==> !ValidConfig(c)
  {
  }

  /** The loop over a policy's pinned addresses. */
  method CheckAddresses(addresses: seq<Address>) returns (ok: bool)
    ensures ok <==>
      && (forall a :: a in addresses ==> a.usable)
      && forall i, j :: 0 <= i < j < |addresses| ==> addresses[i].value != addresses[j].value
  {
    var seen: set<nat> := {};
    for k := 0 to |addresses|
      invariant forall i :: 0 <= i < k ==> addresses[i].usable && addresses[i].value in seen
      invariant forall v :: v in seen ==> exists i :: 0 <= i < k && addresses[i].value == v
      invariant forall i, j :: 0 <= i < j < k ==> addresses[i].value != addresses[j].value
    {
      if !addresses[k].usable || addresses[k].value in seen {
        return false;
      }
      seen := seen + {addresses[k].value};
    }
    ok := true;
  }

  method CheckPolicy(name: string, p: Policy) returns (ok: bool)
    ensures ok == ValidPolicy(name, p)
  {
    hide ValidFqdn, ValidLabel;
    if !ValidLabel(name) || !ValidFqdn(p.fqdn) || |p.addresses| == 0 || |p.addresses| > 16 {
      return false;
    }
    ok := CheckAddresses(p.addresses);
  }

  /** NewServer: walks the policy table in an arbitrary order and stops at the first bad policy or
      repeated FQDN. The verdict and the registry do not depend on the order. */
  method NewServer(c: Config) returns (r: Outcome<map<string, Node>>)
    ensures r.Success? <==> ValidConfig(c)
    ensures r.Success? ==> ValidConfig(c) && r.value == Registry(c)
  {
    hide ValidPolicy, ValidFqdn, Registry;
    if !c.metricsOk || !c.trustTransport || !ValidFqdn(c.trustDomain) || c.port < 1 || c.port > 65535
      || |c.nodes| == 0 {
      return Failure(InvalidConfig);
    }
    var nodes: map<string, Node> := map[];
    var done: set<string> := {};
    while done != c.nodes.Keys
      invariant done <= c.nodes.Keys && Built(c.nodes, done, nodes)
      decreases c.nodes.Keys - done
    {
      assert c.nodes.Keys == done + (c.nodes.Keys - done);
      var name :| name in c.nodes.Keys - done;
      var p := c.nodes[name];
      var good := CheckPolicy(name, p);
      if !good || p.fqdn in nodes {
        return Failure(InvalidConfig);
      }
      BuiltAdd(c.nodes, done, nodes, name);
      nodes := nodes[p.fqdn := Node(name, p.fqdn)];
      done := done + {name};
    }
    BuiltAll(c, nodes);
    r := Success(nodes);
  }

  /** The server side of one plugin process, over all its generations. */
  class ServerPlugin {
    var clock: int
    var gens: seq<Generation>
    var sessions: seq<Session>
    var gauge: Gauge
    ghost var agents: seq<Agent>
    ghost var signed: set<(nat, Document)>
    ghost var approvals: seq<Approval>

    ghost function View(): State
      reads this
    {
      State(clock, gens, sessions, agents, signed, approvals, gauge)
    }

    constructor ()
      ensures View() == INIT
    {
      clock, gens, sessions, gauge := 0, [], [], Gauge({"unknown"}, {}, map[]);
      agents, signed, approvals := [], {}, [];
    }

    /** Configure: core is the trust domain SPIRE names, and listens whether the metrics listener could be set up.
        A refused configuration leaves everything as it was. */
    method ConfigurePlugin(c: Config, core: string, listens: bool) returns (r: Outcome<nat>)
      modifies this
      ensures r == if core == c.trustDomain && ValidConfig(c) && listens then Success(|old(gens)|)
        else Failure(InvalidConfig)
      ensures View() == if r.Success? then Apply(old(View()), Configure(c)) else old(View())
    {
      hide ValidFqdn, ValidPolicy;
      if c.trustDomain == "" || core != c.trustDomain {
        EmptyDomain(c);
        return Failure(InvalidConfig);
      }
      var made := NewServer(c);
      if made.Failure? || !listens {
        return Failure(InvalidConfig);
      }
      r := Success(|gens|);
      gauge := Register(gauge, c.nodes.Keys);
      gens := gens + [Generation(c.trustDomain, made.value, map[], map[])];
    }

    /** Server.Begin: the checks run in the source's order, so the reason is the first that applies. */
    method Begin(gen: nat, payload: Document) returns (r: Outcome<nat>)
      requires gen < |gens|
      modifies this
      ensures View() == Apply(old(View()), Action.Begin(gen, payload))
      ensures r.Success? <==> Admissible(old(gens[gen]), payload)
      ensures r.Success? ==>
        r.value == |old(sessions)| && sessions[r.value].raw == ChallengeDoc(sessions[r.value].challenge, Marshalled)
      ensures r == Failure(InvalidPayload) <==>
        DecodeRequest(payload).None? || DecodeRequest(payload).value.version != 1
      ensures r == Failure(UnknownNode) ==> DecodeRequest(payload).value.fqdn !in old(gens[gen]).nodes
      ensures r == Failure(InvalidKey) ==> KeyOf(DecodeRequest(payload).value.jwk).None?
      ensures r == Failure(CapacityReached) ==> |old(gens[gen]).active| >= 32
    {
      var decoded := DecodeRequest(payload);
      if decoded.None? || decoded.value.version != 1 {
        return Failure(InvalidPayload);
      }
      var request := decoded.value;
      var g := gens[gen];
      if request.fqdn !in g.nodes {
        return Failure(UnknownNode);
      }
      if KeyOf(request.jwk).None? {
        return Failure(InvalidKey);
      }
      if |g.active| >= CAPACITY {
        return Failure(CapacityReached);
      }
      var serial := |sessions|;
      var node := g.nodes[request.fqdn];
      var c := IssuedChallenge(Random(2 * serial), Random(2 * serial + 1), request.fqdn, g.trustDomain, request.jwk,
        clock);
      sessions := sessions
        + [Session(gen, node, request, c, ChallengeDoc(c, Marshalled), clock, false, false, false, false, 0)];
      gens := gens[gen := g.(active := g.active[c.id := serial])];
      gauge := PendingAdd(gauge, node.name, 1);
      r := Success(serial);
    }

    /** The first locked section of Verify and the checks before the fetch. */
    method StartVerify(i: nat, response: Document) returns (r: Outcome<nat>)
      requires i < |sessions|
      modifies this
      ensures View() == Apply(old(View()), Action.StartVerify(i, response))
      ensures r.Success? <==> !old(sessions[i]).verified && sessions[i].fetching && !old(sessions[i]).closed
      ensures old(sessions[i]).closed || old(sessions[i]).verified <==> r == Failure(SessionEnded)
      ensures r == Failure(InvalidResponse) ==> !ReadyFor(response, old(sessions[i]).challenge.id)
      ensures r == Failure(Expired) ==> old(sessions[i]).challenge.expiresAt <= clock / 1_000_000_000
    {
      var a := sessions[i];
      if a.closed || a.verified {
        return Failure(SessionEnded);
      }
      sessions := sessions[i := a.(verified := true, fetching := false)];
      var ready := DecodeReady(response);
      if ready.None? || ready.value.version != 1 || ready.value.id != a.challenge.id {
        return Failure(InvalidResponse);
      }
      if Unix(clock) >= a.challenge.expiresAt {
        return Failure(Expired);
      }
      sessions := sessions[i := a.(verified := true, fetching := true)];
      r := Success(i);
    }

    /** The second locked section of Verify, with chargeSuccess; the expiry check read the clock late earlier.
        A refused charge still prunes. */
    method FinishVerify(i: nat, body: Document, ended: bool, late: nat) returns (r: Outcome<Approval>)
      requires i < |sessions| && sessions[i].fetching && sessions[i].gen < |gens|
      requires Deliverable(signed, body) && sessions[i].issued <= clock - late
      modifies this
      ensures View() == Apply(old(View()), Action.FinishVerify(i, body, ended, late))
      ensures r.Success? <==> |approvals| > |old(approvals)|
      ensures r.Success? ==> approvals == old(approvals) + [r.value]
      ensures r == Failure(InvalidProof) <==> !SignedBy(body, old(sessions[i]).request.jwk, old(sessions[i]).raw)
      ensures r == Failure(SessionEnded) <==>
        && SignedBy(body, old(sessions[i]).request.jwk, old(sessions[i]).raw)
        && (old(sessions[i]).closed || ended || old(sessions[i]).challenge.expiresAt <= (clock - late) / 1_000_000_000)
      ensures r == Failure(RateLimit) <==>
        Proven(old(sessions[i]), body, ended, clock - late)
          && !Admits(Recent(old(gens[sessions[i].gen]), old(sessions[i]).node.name), clock)
    {
      hide VerifyProof, SignedBy, Deliverable, Live;
      var a, checked := sessions[i], clock - late;
      VerifiesExactly(body, a.request.jwk, a.raw);
      sessions := sessions[i := a.(fetching := false)];
      var payload := VerifyProof(body, a.request.jwk);
      if payload.None? || payload.value != a.raw {
        return Failure(InvalidProof);
      }
      if a.closed || Unix(checked) >= a.challenge.expiresAt || ended {
        return Failure(SessionEnded);
      }
      var g := gens[a.gen];
      var live := Live(Recent(g, a.node.name), clock);
      if |live| >= QUOTA {
        gens := gens[a.gen := g.(recent := g.recent[a.node.name := live])];
        return Failure(RateLimit);
      }
      gens := gens[a.gen := g.(recent := g.recent[a.node.name := live + [clock]])];
      var approval := Approval(i, a.gen, a.node.name, AgentId(g.trustDomain, a.node.name), ["fqdn:" + a.node.fqdn],
        checked, clock);
      approvals := approvals + [approval];
      r := Success(approval);
    }

    /** The first locked section of Close; only one caller goes on to the second. */
    method MarkClosed(i: nat) returns (first: bool)
      requires i < |sessions|
      modifies this
      ensures View() == Apply(old(View()), Action.MarkClosed(i))
      ensures first <==> !old(sessions[i]).closed
    {
      var a := sessions[i];
      if a.closed {
        return false;
      }
      sessions := sessions[i := a.(closed := true, leaving := true)];
      first := true;
    }

    /** The second locked section of Close. */
    method Leave(i: nat)
      requires i < |sessions| && sessions[i].leaving && sessions[i].gen < |gens|
      modifies this
      ensures View() == Apply(old(View()), Action.Leave(i))
    {
      var a := sessions[i];
      var g := gens[a.gen];
      sessions := sessions[i := a.(leaving := false)];
      if a.challenge.id in g.active && g.active[a.challenge.id] == i {
        gens := gens[a.gen := g.(active := g.active - {a.challenge.id})];
        gauge := PendingAdd(gauge, a.node.name, -1);
        sessions := sessions[i := a.(leaving := false, left := a.left + 1)];
      }
    }
  }

  /** One agent attempt; documents lists everything it ever signed. */
  class AgentAttempt {
    const n: nat
    var agent: Agent
    var documents: seq<Document>

    ghost predicate Valid()
      reads this
    {
      |documents| <= (if agent.responded then 1 else 0)
    }

    constructor (n: nat, fqdn: string, domain: string)
      ensures Valid() && this.n == n && agent == Agent(fqdn, domain, false, None, false) && documents == []
    {
      this.n := n;
      agent := Agent(fqdn, domain, false, None, false);
      documents := [];
    }

    /** Respond: one try only. What it hands to the responder proves possession of exactly the bytes it was given;
        it reports ready only after the responder took it, but what was signed stays signed. */
    method Respond(raw: Document, reading: int, taken: bool) returns (r: Outcome<Document>, put: Option<Document>)
      requires Valid()
      modifies this
      ensures Valid() && agent.fqdn == old(agent).fqdn && agent.trustDomain == old(agent).trustDomain
      ensures old(agent).closed || old(agent).responded ==> agent == old(agent) && r == Failure(NotPending)
      ensures !old(agent).closed ==> agent.responded
      ensures put.Some? <==> !old(agent).closed && !old(agent).responded && Signable(old(agent), n, raw, reading)
      ensures put.Some? ==> agent.published == Some(raw.challenge.id)
      ensures put.Some? && Fits(put.value) ==> VerifyProof(put.value, JwkFor(Honest(n))) == Some(raw)
      ensures r.Success? <==> put.Some? && taken
      ensures r == Failure(PublishFailed) <==> put.Some? && !taken
      ensures r.Success? ==> r.value == ReadyDoc(Ready(1, raw.challenge.id), Marshalled)
      ensures documents == if put.Some? then [raw] else old(documents)
      ensures forall s: State :: n < |s.agents| && s.agents[n] == old(agent) ==>
        RespondStep(s, n, raw, reading) ==
          s.(agents := s.agents[n := agent], signed := s.signed + (if put.Some? then {(n, raw)} else {}))
    {
      put := None;
      if agent.closed || agent.responded {
        return Failure(NotPending), None;
      }
      agent := agent.(responded := true);
      if !Signable(agent, n, raw, reading) {
        return Failure(InvalidChallenge), None;
      }
      put := Some(SignProof(Honest(n), raw));
      documents := documents + [raw];
      agent := agent.(published := Some(raw.challenge.id));
      if !taken {
        return Failure(PublishFailed), put;
      }
      r := Success(ReadyDoc(Ready(1, raw.challenge.id), Marshalled));
    }

    /** Close: asks for the published proof to be deleted, once. */
    method Close() returns (delete: Option<Token>)
      requires Valid()
      modifies this
      ensures Valid() && agent == old(agent).(closed := true) && documents == old(documents)
      ensures delete == if old(agent).closed then None else old(agent).published
    {
      if agent.closed {
        return None;
      }
      agent := agent.(closed := true);
      delete := agent.published;
    }
  }
}
