/** The http_fqdn node attestation protocol as a transition system.
    Every lock-protected section of the server and of an agent attempt is one step. The network
    is hostile: payloads, challenges, responses and fetched bodies are arbitrary documents, except
    that nobody can sign with an honest attempt's key. */
module Attestation {
  import opened Clock
  import opened Text
  import opened Wire
  import opened SuccessQuota

  const CAPACITY: nat := 32

  // ---------------------------------------------------------------- configuration

  /** A pinned address after parsing; text that is no address, or one that validAddress refuses, is not usable. */
  datatype Address = Address(value: nat, usable: bool)
  datatype Policy = Policy(fqdn: string, addresses: seq<Address>)
  datatype Config = Config(
    metricsOk: bool, trustTransport: bool, trustDomain: string, port: int, nodes: map<string, Policy>)
  datatype Node = Node(name: string, fqdn: string)

  predicate ValidPolicy(name: string, p: Policy)
  {
    && ValidLabel(name) && ValidFqdn(p.fqdn) && 1 <= |p.addresses| <= 16
    && (forall a :: a in p.addresses ==> a.usable)
    && forall i, j :: 0 <= i < j < |p.addresses| ==> p.addresses[i].value != p.addresses[j].value
  }

  /** NewServer accepts exactly these configurations. */
  predicate ValidConfig(c: Config)
  {
    && c.metricsOk && c.trustTransport && ValidFqdn(c.trustDomain) && 1 <= c.port <= 65535 && c.nodes != map[]
    && (forall name :: name in c.nodes ==> ValidPolicy(name, c.nodes[name]))
    && forall m, n :: m in c.nodes && n in c.nodes && m != n ==> c.nodes[m].fqdn != c.nodes[n].fqdn
  }

  /** Server.nodes: the policy table turned round, keyed by FQDN. */
  function Registry(c: Config): (nodes: map<string, Node>)
    requires ValidConfig(c)
    ensures forall f :: f in nodes ==>
      nodes[f].fqdn == f && nodes[f].name in c.nodes && c.nodes[nodes[f].name].fqdn == f
    ensures forall name :: name in c.nodes ==>
      c.nodes[name].fqdn in nodes && nodes[c.nodes[name].fqdn] == Node(name, c.nodes[name].fqdn)
  {
    map name | name in c.nodes :: c.nodes[name].fqdn := Node(name, c.nodes[name].fqdn)
  }

  // ---------------------------------------------------------------- state

  /** One Server object. Configure makes a new one; streams already begun keep the old one. */
  datatype Generation = Generation(
    trustDomain: string, nodes: map<string, Node>, active: map<Token, nat>, recent: map<string, seq<int>>)

  /** One ServerAttempt. leaving holds between the two locked sections of Close; left counts departures. */
  datatype Session = Session(
    gen: nat, node: Node, request: Request, challenge: Challenge, raw: Document, issued: int,
    verified: bool, fetching: bool, closed: bool, leaving: bool, left: nat)

  /** One honest AgentAttempt; attempt n owns key Honest(n). */
  datatype Agent = Agent(fqdn: string, trustDomain: string, responded: bool, published: Option<Token>, closed: bool)

  /** A Result returned by Verify: checked is the clock at its last expiry check, at the clock at its charge. */
  datatype Approval = Approval(
    session: nat, gen: nat, name: string, agentId: string, selectors: seq<string>, checked: int, at: int)

  /** The metrics registry's node labels and pending gauge. */
  datatype Gauge = Gauge(nodes: set<string>, seeded: set<string>, pending: map<string, int>)

  datatype State = State(
    clock: int, gens: seq<Generation>, sessions: seq<Session>, agents: seq<Agent>,
    signed: set<(nat, Document)>, approvals: seq<Approval>, gauge: Gauge)

  const INIT: State := State(0, [], [], [], {}, [], Gauge({"unknown"}, {}, map[]))

  datatype Action =
    | Tick(elapsed: nat)
    | Configure(config: Config)
    | BeginAgent(fqdn: string, trustDomain: string)
    | Begin(gen: nat, payload: Document)
    | Respond(agent: nat, raw: Document, reading: int)
    | CloseAgent(agent: nat)
    | StartVerify(session: nat, response: Document)
    | FinishVerify(session: nat, body: Document, ended: bool, late: nat)
    | MarkClosed(session: nat)
    | Leave(session: nat)

  // ---------------------------------------------------------------- metrics

  function Register(g: Gauge, names: set<string>): Gauge
  {
    Gauge(g.nodes + names, g.seeded + names, g.pending + (map n | n in names - g.seeded :: 0))
  }

  function Label(g: Gauge, name: string): string { if name in g.nodes then name else "unknown" }

  function Pending(g: Gauge, name: string): int { if name in g.pending then g.pending[name] else 0 }

  function PendingAdd(g: Gauge, name: string, delta: int): Gauge
  {
    g.(pending := g.pending[Label(g, name) := Pending(g, Label(g, name)) + delta])
  }

  // ---------------------------------------------------------------- steps

  function Recent(g: Generation, name: string): seq<int> { if name in g.recent then g.recent[name] else [] }

  predicate Admissible(g: Generation, payload: Document)
  {
    && DecodeRequest(payload).Some?
    && var r := DecodeRequest(payload).value;
       r.version == 1 && r.fqdn in g.nodes && KeyOf(r.jwk).Some? && |g.active| < CAPACITY
  }

  function NewSession(g: Generation, gen: nat, serial: nat, payload: Document, now: int): Session
    requires Admissible(g, payload)
  {
    var r := DecodeRequest(payload).value;
    var c := IssuedChallenge(Random(2 * serial), Random(2 * serial + 1), r.fqdn, g.trustDomain, r.jwk, now);
    Session(gen, g.nodes[r.fqdn], r, c, ChallengeDoc(c, Marshalled), now, false, false, false, false, 0)
  }

  function BeginStep(s: State, gen: nat, payload: Document): State
  {
    if gen < |s.gens| && Admissible(s.gens[gen], payload) then
      var g := s.gens[gen];
      var a := NewSession(g, gen, |s.sessions|, payload, s.clock);
      s.(sessions := s.sessions + [a],
         gens := s.gens[gen := g.(active := g.active[a.challenge.id := |s.sessions|])],
         gauge := PendingAdd(s.gauge, a.node.name, 1))
    else s
  }

  /** What an agent attempt checks before it signs. */
  predicate Signable(a: Agent, n: nat, raw: Document, now: int)
  {
    && DecodeChallenge(raw).Some?
    && var c := DecodeChallenge(raw).value;
       && ValidChallenge(c, now) && c.fqdn == a.fqdn && c.trustDomain == a.trustDomain
       && c.serverId == ServerId(a.trustDomain) && c.keyThumbprint == Thumbprint(JwkFor(Honest(n)))
  }

  /** reading is the clock of the agent's host, which need not agree with the server's. */
  function RespondStep(s: State, n: nat, raw: Document, reading: int): State
  {
    if n >= |s.agents| || s.agents[n].closed || s.agents[n].responded then s
    else
      var a := s.agents[n].(responded := true);
      if Signable(a, n, raw, reading) then
        s.(agents := s.agents[n := a.(published := Some(raw.challenge.id))], signed := s.signed + {(n, raw)})
      else s.(agents := s.agents[n := a])
  }

  function StartVerifyStep(s: State, i: nat, response: Document): State
  {
    if i >= |s.sessions| || s.sessions[i].closed || s.sessions[i].verified then s
    else
      var a := s.sessions[i];
      var go := DecodeReady(response) == Some(Ready(1, a.challenge.id)) && Unix(s.clock) < a.challenge.expiresAt;
      s.(sessions := s.sessions[i := a.(verified := true, fetching := go)])
  }

  /** Any body can come back from the fetch, except a forgery under an honest attempt's key. */
  predicate Deliverable(signed: set<(nat, Document)>, body: Document)
  {
    body.ProofDoc? && body.proof.Compact? && body.proof.signer.Some? && body.proof.signer.value.Honest? ==>
      (body.proof.signer.value.attempt, body.proof.payload) in signed
  }

  predicate Proven(a: Session, body: Document, ended: bool, now: int)
  {
    && VerifyProof(body, a.request.jwk) == Some(a.raw)
    && !a.closed && Unix(now) < a.challenge.expiresAt && !ended
  }

  function ResultOf(s: State, i: nat, late: nat): Approval
    requires i < |s.sessions| && s.sessions[i].gen < |s.gens|
  {
    var a := s.sessions[i];
    Approval(i, a.gen, a.node.name, AgentId(s.gens[a.gen].trustDomain, a.node.name), ["fqdn:" + a.node.fqdn],
      s.clock - late, s.clock)
  }

  /** The second locked section of Verify, at the moment of its charge. The expiry check read the clock a little
      earlier, but not before the session began. */
  function FinishVerifyStep(s: State, i: nat, body: Document, ended: bool, late: nat): State
  {
    if i >= |s.sessions| || !s.sessions[i].fetching || s.sessions[i].gen >= |s.gens|
      || !Deliverable(s.signed, body) then s
    else if s.clock - late < s.sessions[i].issued then s
    else
      var a := s.sessions[i];
      var s1 := s.(sessions := s.sessions[i := a.(fetching := false)]);
      if !Proven(a, body, ended, s.clock - late) then s1
      else
        var g := s.gens[a.gen];
        var times := Recent(g, a.node.name);
        s1.(gens := s.gens[a.gen := g.(recent := g.recent[a.node.name := Charged(times, s.clock)])],
            approvals := if Admits(times, s.clock) then s.approvals + [ResultOf(s, i, late)] else s.approvals)
  }

  function MarkClosedStep(s: State, i: nat): State
  {
    if i >= |s.sessions| || s.sessions[i].closed then s
    else s.(sessions := s.sessions[i := s.sessions[i].(closed := true, leaving := true)])
  }

  function LeaveStep(s: State, i: nat): State
  {
    if i >= |s.sessions| || !s.sessions[i].leaving || s.sessions[i].gen >= |s.gens| then s
    else
      var a := s.sessions[i];
      var g := s.gens[a.gen];
      var here := a.challenge.id in g.active && g.active[a.challenge.id] == i;
      s.(sessions := s.sessions[i := a.(leaving := false, left := a.left + if here then 1 else 0)],
         gens := if here then s.gens[a.gen := g.(active := g.active - {a.challenge.id})] else s.gens,
         gauge := if here then PendingAdd(s.gauge, a.node.name, -1) else s.gauge)
  }

  /** One step of the system. An action that is not enabled changes nothing. */
  function Apply(s: State, x: Action): State
  {
    match x
    case Tick(d) => s.(clock := s.clock + d)
    case Configure(c) =>
      if ValidConfig(c) then
        s.(gens := s.gens + [Generation(c.trustDomain, Registry(c), map[], map[])],
          gauge := Register(s.gauge, c.nodes.Keys))
      else s
    case BeginAgent(fqdn, domain) =>
      if ValidFqdn(fqdn) && ValidFqdn(domain) then
        s.(agents := s.agents + [Agent(fqdn, domain, false, None, false)])
      else s
    case Begin(gen, payload) => BeginStep(s, gen, payload)
    case Respond(n, raw, reading) => RespondStep(s, n, raw, reading)
    case CloseAgent(n) =>
      if n < |s.agents| then s.(agents := s.agents[n := s.agents[n].(closed := true)]) else s
    case StartVerify(i, response) => StartVerifyStep(s, i, response)
    case FinishVerify(i, body, ended, late) => FinishVerifyStep(s, i, body, ended, late)
    case MarkClosed(i) => MarkClosedStep(s, i)
    case Leave(i) => LeaveStep(s, i)
  }

  function Run(xs: seq<Action>): State
  {
    if |xs| == 0 then INIT else Apply(Run(xs[..|xs| - 1]), xs[|xs| - 1])
  }
}
