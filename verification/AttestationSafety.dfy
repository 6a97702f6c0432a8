/** What every run of the attestation system keeps. The invariants speak about the parts of the
    state they need, so that each step only has to be checked against the parts it touches. */
module AttestationSafety {
  import opened Clock
  import opened Counting
  import opened Text
  import opened Wire
  import opened SuccessQuota
  import opened Attestation

  // ---------------------------------------------------------------- nothing is taken back

  predicate InService(a: Session) { !a.closed || a.leaving }

  /** Verify has been called and is not waiting for its fetch: it can never return a Result again. */
  predicate Settled(a: Session) { a.verified && !a.fetching }

  predicate SameSession(a: Session, b: Session)
  {
    && a.gen == b.gen && a.node == b.node && a.request == b.request && a.challenge == b.challenge
    && a.raw == b.raw && a.issued == b.issued && (Settled(a) ==> Settled(b))
    && (a.verified ==> b.verified) && (a.closed ==> b.closed)
  }

  predicate SameGeneration(g: Generation, h: Generation) { g.trustDomain == h.trustDomain && g.nodes == h.nodes }

  /** An attempt keeps its names; it never becomes pending again, and what it published stays published. */
  predicate SameAgent(a: Agent, b: Agent)
  {
    && a.fqdn == b.fqdn && a.trustDomain == b.trustDomain
    && (a.responded ==> b.responded && b.published == a.published) && (a.closed ==> b.closed)
  }

  ghost predicate Extends(s: State, t: State)
  {
    && s.clock <= t.clock && |s.gens| <= |t.gens| && |s.sessions| <= |t.sessions| && s.signed <= t.signed
    && s.approvals <= t.approvals && |s.agents| <= |t.agents|
    && (forall n: nat :: n < |s.agents| ==> SameAgent(s.agents[n], t.agents[n]))
    && (forall g: nat :: g < |s.gens| ==> SameGeneration(s.gens[g], t.gens[g]))
    && forall i: nat :: i < |s.sessions| ==> SameSession(s.sessions[i], t.sessions[i])
  }

  lemma BeginExtends(s: State, gen: nat, payload: Document)
    ensures Extends(s, BeginStep(s, gen, payload))
  {
  }

  lemma FinishExtends(s: State, i: nat, body: Document, ended: bool, late: nat)
    ensures Extends(s, FinishVerifyStep(s, i, body, ended, late))
  {
  }

  lemma StartExtends(s: State, i: nat, response: Document)
    ensures Extends(s, StartVerifyStep(s, i, response))
  {
  }

  lemma LeaveExtends(s: State, i: nat)
    ensures Extends(s, LeaveStep(s, i))
    ensures Extends(s, MarkClosedStep(s, i))
  {
  }

  lemma StepExtends(s: State, x: Action)
    ensures Extends(s, Apply(s, x))
  {
    hide BeginStep, FinishVerifyStep, StartVerifyStep, MarkClosedStep, LeaveStep, ValidConfig, ValidFqdn;
    match x {
      case Begin(gen, payload) => BeginExtends(s, gen, payload);
      case FinishVerify(i, body, ended, late) => FinishExtends(s, i, body, ended, late);
      case StartVerify(i, response) => StartExtends(s, i, response);
      case MarkClosed(i) => LeaveExtends(s, i);
      case Leave(i) => LeaveExtends(s, i);
      case Respond(n, raw, reading) =>
      case Configure(c) =>
      case _ =>
    }
  }

  lemma {:induction false} RunExtends(xs: seq<Action>, k: nat)
    requires k <= |xs|
    ensures Extends(Run(xs[..k]), Run(xs))
  {
    hide Apply;
    if k == |xs| {
      assert xs[..k] == xs;
    } else {
      var n := |xs| - 1;
      assert xs[..n][..k] == xs[..k];
      RunExtends(xs[..n], k);
      StepExtends(Run(xs[..n]), xs[n]);
    }
  }

  // ---------------------------------------------------------------- registries

  /** Every generation's registry is one-to-one between names and FQDNs. */
  ghost predicate RegistryOk(g: Generation)
  {
    && ValidFqdn(g.trustDomain)
    && (forall f :: f in g.nodes ==> ValidFqdn(f) && g.nodes[f].fqdn == f)
    && forall f, h :: f in g.nodes && h in g.nodes && g.nodes[f].name == g.nodes[h].name ==> f == h
  }

  ghost predicate RegistriesOk(gens: seq<Generation>)
  {
    forall g: nat :: g < |gens| ==> RegistryOk(gens[g])
  }

  lemma ConfigureRegistry(c: Config)
    requires ValidConfig(c)
    ensures RegistryOk(Generation(c.trustDomain, Registry(c), map[], map[]))
  {
    assert forall name :: name in c.nodes ==> ValidPolicy(name, c.nodes[name]);
  }

  lemma RegistriesKept(s: State, x: Action)
    requires RegistriesOk(s.gens)
    ensures RegistriesOk(Apply(s, x).gens)
  {
    var t := Apply(s, x);
    StepExtends(s, x);
    forall g: nat | g < |s.gens| ensures RegistryOk(t.gens[g]) {
      assert RegistryOk(s.gens[g]) && SameGeneration(s.gens[g], t.gens[g]);
    }
    if x.Configure? {
      if ValidConfig(x.config) {
        ConfigureRegistry(x.config);
      }
    } else {
      OnlyConfigureAdds(s, x);
    }
  }

  lemma OnlyConfigureAdds(s: State, x: Action)
    requires !x.Configure?
    ensures |Apply(s, x).gens| == |s.gens|
  {
  }

  // ---------------------------------------------------------------- sessions

  /** What Begin fixed for session i: its node, its challenge and its exact challenge bytes. */
  ghost predicate Issued(a: Session, i: nat, g: Generation)
  {
    && a.request.fqdn in g.nodes && a.node == g.nodes[a.request.fqdn]
    && a.challenge ==
         IssuedChallenge(Random(2 * i), Random(2 * i + 1), a.request.fqdn, g.trustDomain, a.request.jwk, a.issued)
    && a.raw == ChallengeDoc(a.challenge, Marshalled)
    && KeyOf(a.request.jwk).Some?
  }

  ghost predicate SessionsOk(s: State)
  {
    forall i: nat :: i < |s.sessions| ==>
      && s.sessions[i].gen < |s.gens| && s.sessions[i].issued <= s.clock
      && Issued(s.sessions[i], i, s.gens[s.sessions[i].gen])
  }

  lemma SessionsKept(s: State, x: Action)
    requires SessionsOk(s)
    ensures SessionsOk(Apply(s, x))
  {
    var t := Apply(s, x);
    StepExtends(s, x);
    forall i: nat | i < |s.sessions|
      ensures t.sessions[i].gen < |t.gens| && t.sessions[i].issued <= t.clock
      ensures Issued(t.sessions[i], i, t.gens[t.sessions[i].gen])
    {
      assert SameSession(s.sessions[i], t.sessions[i]);
      assert SameGeneration(s.gens[s.sessions[i].gen], t.gens[s.sessions[i].gen]);
    }
    if x.Begin? {
      BeginIssues(s, x.gen, x.payload);
    } else {
      OnlyBeginAdds(s, x);
    }
  }

  lemma OnlyBeginAdds(s: State, x: Action)
    requires !x.Begin?
    ensures |Apply(s, x).sessions| == |s.sessions|
  {
  }

  lemma BeginIssues(s: State, gen: nat, payload: Document)
    ensures var t := BeginStep(s, gen, payload);
      t.sessions != s.sessions ==>
        var n := |s.sessions|;
        && |t.sessions| == n + 1 && gen < |t.gens| && t.sessions[n].gen == gen && t.sessions[n].issued == t.clock
        && Issued(t.sessions[n], n, t.gens[gen])
  {
  }

  // ---------------------------------------------------------------- flags

  /** A session leaves exactly once: when the second locked section of its only effective Close ran. */
  predicate FlagsOk(a: Session)
  {
    (a.fetching ==> a.verified) && (a.leaving ==> a.closed) && a.left == if InService(a) then 0 else 1
  }

  ghost predicate FlagsAllOk(sessions: seq<Session>)
  {
    forall i: nat :: i < |sessions| ==> FlagsOk(sessions[i])
  }

  lemma LeaveFlags(s: State, i: nat)
    requires FlagsAllOk(s.sessions) && IdsOk(s.sessions) && ActivesOk(s.gens, s.sessions)
    ensures FlagsAllOk(LeaveStep(s, i).sessions)
  {
    if i < |s.sessions| && s.sessions[i].gen < |s.gens| {
      assert ActiveOk(s.gens[s.sessions[i].gen].active, s.sessions, s.sessions[i].gen);
    }
  }

  lemma FlagsKept(s: State, x: Action)
    requires FlagsAllOk(s.sessions) && IdsOk(s.sessions) && ActivesOk(s.gens, s.sessions)
    ensures FlagsAllOk(Apply(s, x).sessions)
  {
    match x {
      case Leave(i) => LeaveFlags(s, i);
      case Begin(gen, payload) =>
      case FinishVerify(i, body, ended, late) =>
      case _ =>
    }
  }

  // ---------------------------------------------------------------- active maps

  ghost predicate IdsOk(sessions: seq<Session>)
  {
    forall i: nat :: i < |sessions| ==> sessions[i].challenge.id == Random(2 * i)
  }

  /** A generation's active map holds exactly its sessions in service, each under its own ID. */
  ghost predicate ActiveOk(active: map<Token, nat>, sessions: seq<Session>, gen: nat)
  {
    && |active| <= CAPACITY
    && (forall id :: id in active ==>
          active[id] < |sessions| && sessions[active[id]].gen == gen && id == Random(2 * active[id])
            && InService(sessions[active[id]]))
    && forall i: nat :: i < |sessions| && sessions[i].gen == gen && InService(sessions[i]) ==>
          Random(2 * i) in active && active[Random(2 * i)] == i
  }

  ghost predicate ActivesOk(gens: seq<Generation>, sessions: seq<Session>)
  {
    forall g: nat :: g < |gens| ==> ActiveOk(gens[g].active, sessions, g)
  }

  lemma ActiveAppend(active: map<Token, nat>, sessions: seq<Session>, a: Session, gen: nat)
    requires ActiveOk(active, sessions, gen) && InService(a)
    ensures a.gen != gen ==> ActiveOk(active, sessions + [a], gen)
    ensures a.gen == gen && |active| < CAPACITY ==>
      ActiveOk(active[Random(2 * |sessions|) := |sessions|], sessions + [a], gen)
  {
    var longer := sessions + [a];
    assert forall i: nat :: i < |sessions| ==> longer[i] == sessions[i];
    assert Random(2 * |sessions|) !in active;
  }

  /** Rewriting one session without changing whether it is in service. */
  lemma ActiveUpdate(active: map<Token, nat>, sessions: seq<Session>, i: nat, b: Session, gen: nat)
    requires ActiveOk(active, sessions, gen) && i < |sessions| && b.gen == sessions[i].gen
    requires InService(b) == InService(sessions[i]) || b.gen != gen
    ensures ActiveOk(active, sessions[i := b], gen)
  {
  }

  lemma ActiveRemove(active: map<Token, nat>, sessions: seq<Session>, i: nat, b: Session, gen: nat)
    requires ActiveOk(active, sessions, gen) && i < |sessions| && b.gen == sessions[i].gen == gen && !InService(b)
    ensures ActiveOk(active - {Random(2 * i)}, sessions[i := b], gen)
  {
    hide InService, ActiveOk;
    var less, after := active - {Random(2 * i)}, sessions[i := b];
    SubsetSize(less.Keys, active.Keys);
    WithinCapacity(active, sessions, gen);
    forall id | id in less
      ensures less[id] < |after| && after[less[id]].gen == gen && id == Random(2 * less[id])
        && InService(after[less[id]])
    {
      OtherEntry(active, sessions, i, gen, id);
    }
    forall j: nat | j < |after| && after[j].gen == gen && InService(after[j])
      ensures Random(2 * j) in less && less[Random(2 * j)] == j
    {
      OtherSession(active, sessions, i, gen, j);
    }
    FoldActive(less, after, gen);
  }

  lemma WithinCapacity(active: map<Token, nat>, sessions: seq<Session>, gen: nat)
    requires ActiveOk(active, sessions, gen)
    ensures |active| <= CAPACITY
  {
  }

  lemma FoldActive(active: map<Token, nat>, sessions: seq<Session>, gen: nat)
    requires |active| <= CAPACITY
    requires forall id :: id in active ==>
      active[id] < |sessions| && sessions[active[id]].gen == gen && id == Random(2 * active[id])
        && InService(sessions[active[id]])
    requires forall i: nat :: i < |sessions| && sessions[i].gen == gen && InService(sessions[i]) ==>
      Random(2 * i) in active && active[Random(2 * i)] == i
    ensures ActiveOk(active, sessions, gen)
  {
  }

  lemma OtherEntry(active: map<Token, nat>, sessions: seq<Session>, i: nat, gen: nat, id: Token)
    requires ActiveOk(active, sessions, gen) && id in active && id != Random(2 * i)
    ensures active[id] < |sessions| && active[id] != i && sessions[active[id]].gen == gen
    ensures id == Random(2 * active[id]) && InService(sessions[active[id]])
  {
  }

  lemma OtherSession(active: map<Token, nat>, sessions: seq<Session>, i: nat, gen: nat, j: nat)
    requires ActiveOk(active, sessions, gen) && j < |sessions| && j != i && sessions[j].gen == gen
      && InService(sessions[j])
    ensures Random(2 * j) in active && active[Random(2 * j)] == j && Random(2 * j) != Random(2 * i)
  {
  }

  lemma ActivesUpdate(gens: seq<Generation>, gens': seq<Generation>, sessions: seq<Session>, i: nat, b: Session)
    requires IdsOk(sessions) && ActivesOk(gens, sessions) && i < |sessions|
    requires SameSession(sessions[i], b) && InService(b) == InService(sessions[i])
    requires |gens'| == |gens| && forall g: nat :: g < |gens| ==> gens'[g].active == gens[g].active
    ensures ActivesOk(gens', sessions[i := b]) && IdsOk(sessions[i := b])
  {
    forall g: nat | g < |gens'| ensures ActiveOk(gens'[g].active, sessions[i := b], g) {
      ActiveUpdate(gens[g].active, sessions, i, b, g);
    }
  }

  lemma BeginActive(s: State, gen: nat, payload: Document)
    requires IdsOk(s.sessions) && ActivesOk(s.gens, s.sessions)
    ensures var t := BeginStep(s, gen, payload); ActivesOk(t.gens, t.sessions) && IdsOk(t.sessions)
  {
    var t := BeginStep(s, gen, payload);
    if t.sessions != s.sessions {
      var a := t.sessions[|s.sessions|];
      forall g: nat | g < |t.gens| ensures ActiveOk(t.gens[g].active, t.sessions, g) {
        ActiveAppend(s.gens[g].active, s.sessions, a, g);
      }
    }
  }

  lemma LeaveActive(s: State, i: nat)
    requires IdsOk(s.sessions) && ActivesOk(s.gens, s.sessions) && FlagsAllOk(s.sessions)
    ensures var t := LeaveStep(s, i); ActivesOk(t.gens, t.sessions) && IdsOk(t.sessions)
  {
    var t := LeaveStep(s, i);
    if t != s {
      var a, b := s.sessions[i], t.sessions[i];
      assert FlagsOk(a);
      assert ActiveOk(s.gens[a.gen].active, s.sessions, a.gen);
      ActiveRemove(s.gens[a.gen].active, s.sessions, i, b, a.gen);
      forall g: nat | g < |t.gens| && g != a.gen ensures ActiveOk(t.gens[g].active, t.sessions, g) {
        ActiveUpdate(s.gens[g].active, s.sessions, i, b, g);
      }
    }
  }

  lemma StartActive(s: State, i: nat, response: Document)
    requires IdsOk(s.sessions) && ActivesOk(s.gens, s.sessions)
    ensures var t := StartVerifyStep(s, i, response); ActivesOk(t.gens, t.sessions) && IdsOk(t.sessions)
  {
    var t := StartVerifyStep(s, i, response);
    if t != s {
      ActivesUpdate(s.gens, t.gens, s.sessions, i, t.sessions[i]);
    }
  }

  lemma FinishActive(s: State, i: nat, body: Document, ended: bool, late: nat)
    requires IdsOk(s.sessions) && ActivesOk(s.gens, s.sessions)
    ensures var t := FinishVerifyStep(s, i, body, ended, late); ActivesOk(t.gens, t.sessions) && IdsOk(t.sessions)
  {
    var t := FinishVerifyStep(s, i, body, ended, late);
    if t != s {
      ActivesUpdate(s.gens, t.gens, s.sessions, i, t.sessions[i]);
    }
  }

  lemma MarkActive(s: State, i: nat)
    requires IdsOk(s.sessions) && ActivesOk(s.gens, s.sessions)
    ensures var t := MarkClosedStep(s, i); ActivesOk(t.gens, t.sessions) && IdsOk(t.sessions)
  {
    var t := MarkClosedStep(s, i);
    if t != s {
      ActivesUpdate(s.gens, t.gens, s.sessions, i, t.sessions[i]);
    }
  }

  lemma ConfigureActive(gens: seq<Generation>, sessions: seq<Session>, g: Generation)
    requires ActivesOk(gens, sessions) && g.active == map[]
    requires forall a :: a in sessions ==> a.gen < |gens|
    ensures ActivesOk(gens + [g], sessions)
  {
    forall k: nat | k < |gens + [g]| ensures ActiveOk((gens + [g])[k].active, sessions, k) {
      if k < |gens| {
        assert ActiveOk(gens[k].active, sessions, k);
      }
    }
  }

  lemma ActivesKept(s: State, x: Action)
    requires SessionsOk(s) && IdsOk(s.sessions) && ActivesOk(s.gens, s.sessions) && FlagsAllOk(s.sessions)
    ensures ActivesOk(Apply(s, x).gens, Apply(s, x).sessions)
    ensures IdsOk(Apply(s, x).sessions)
  {
    match x {
      case Begin(gen, payload) => BeginActive(s, gen, payload);
      case Leave(i) => LeaveActive(s, i);
      case StartVerify(i, response) => StartActive(s, i, response);
      case FinishVerify(i, body, ended, late) => FinishActive(s, i, body, ended, late);
      case MarkClosed(i) => MarkActive(s, i);
      case Configure(c) =>
        if ValidConfig(c) {
          ConfigureActive(s.gens, s.sessions, Generation(c.trustDomain, Registry(c), map[], map[]));
        }
      case Respond(n, raw, _) =>
      case _ =>
    }
  }

  // ---------------------------------------------------------------- pending gauge

  /** A node's sessions in service, over all generations. */
  ghost function Serving(sessions: seq<Session>, name: string): set<nat>
  {
    set i: nat | i < |sessions| && sessions[i].node.name == name && InService(sessions[i])
  }

  ghost predicate NamesSeeded(gauge: Gauge, gens: seq<Generation>, sessions: seq<Session>)
  {
    && gauge.seeded <= gauge.nodes
    && (forall g: nat, f :: g < |gens| && f in gens[g].nodes ==> gens[g].nodes[f].name in gauge.seeded)
    && forall i: nat :: i < |sessions| ==> sessions[i].node.name in gauge.seeded
  }

  ghost predicate GaugeOk(gauge: Gauge, sessions: seq<Session>)
  {
    forall name :: Pending(gauge, name) == |Serving(sessions, name)|
  }

  lemma ServingAppend(sessions: seq<Session>, a: Session, name: string)
    requires InService(a)
    ensures |Serving(sessions + [a], name)| == |Serving(sessions, name)| + if a.node.name == name then 1 else 0
  {
    var longer := sessions + [a];
    assert forall i: nat :: i < |sessions| ==> longer[i] == sessions[i];
    if a.node.name == name {
      assert Serving(longer, name) == Serving(sessions, name) + {|sessions|};
    } else {
      assert Serving(longer, name) == Serving(sessions, name);
    }
  }

  lemma ServingUpdate(sessions: seq<Session>, i: nat, b: Session, name: string)
    requires i < |sessions| && b.node == sessions[i].node
    requires InService(b) ==> InService(sessions[i])
    ensures |Serving(sessions[i := b], name)| ==
            |Serving(sessions, name)| - if b.node.name == name && InService(sessions[i]) && !InService(b) then 1 else 0
  {
    if b.node.name == name && InService(sessions[i]) && !InService(b) {
      assert i in Serving(sessions, name);
      assert Serving(sessions[i := b], name) == Serving(sessions, name) - {i};
    } else {
      assert Serving(sessions[i := b], name) == Serving(sessions, name);
    }
  }

  lemma BeginGauge(s: State, gen: nat, payload: Document)
    requires NamesSeeded(s.gauge, s.gens, s.sessions) && GaugeOk(s.gauge, s.sessions)
    ensures var t := BeginStep(s, gen, payload);
      NamesSeeded(t.gauge, t.gens, t.sessions) && GaugeOk(t.gauge, t.sessions)
  {
    var t := BeginStep(s, gen, payload);
    if t.sessions != s.sessions {
      var a := t.sessions[|s.sessions|];
      forall name ensures Pending(t.gauge, name) == |Serving(t.sessions, name)| {
        ServingAppend(s.sessions, a, name);
      }
    }
  }

  lemma UpdateGauge(gauge: Gauge, gens: seq<Generation>, gens': seq<Generation>, sessions: seq<Session>, i: nat,
    b: Session)
    requires NamesSeeded(gauge, gens, sessions) && GaugeOk(gauge, sessions)
    requires i < |sessions| && b.node == sessions[i].node && InService(b) == InService(sessions[i])
    requires |gens'| == |gens| && forall g: nat :: g < |gens| ==> gens'[g].nodes == gens[g].nodes
    ensures NamesSeeded(gauge, gens', sessions[i := b]) && GaugeOk(gauge, sessions[i := b])
  {
    forall name ensures Pending(gauge, name) == |Serving(sessions[i := b], name)| {
      ServingUpdate(sessions, i, b, name);
    }
  }

  lemma LeaveGauge(s: State, i: nat)
    requires IdsOk(s.sessions) && ActivesOk(s.gens, s.sessions) && FlagsAllOk(s.sessions)
    requires NamesSeeded(s.gauge, s.gens, s.sessions) && GaugeOk(s.gauge, s.sessions)
    ensures var t := LeaveStep(s, i); NamesSeeded(t.gauge, t.gens, t.sessions) && GaugeOk(t.gauge, t.sessions)
  {
    var t := LeaveStep(s, i);
    if t != s {
      var a, b := s.sessions[i], t.sessions[i];
      assert FlagsOk(a);
      assert ActiveOk(s.gens[a.gen].active, s.sessions, a.gen);
      forall name ensures Pending(t.gauge, name) == |Serving(t.sessions, name)| {
        ServingUpdate(s.sessions, i, b, name);
      }
    }
  }

  /** Registering a name for the first time resets a gauge that is already zero. */
  lemma RegisterGauge(gauge: Gauge, gens: seq<Generation>, names: set<string>, sessions: seq<Session>)
    requires GaugeOk(gauge, sessions) && NamesSeeded(gauge, gens, sessions)
    ensures GaugeOk(Register(gauge, names), sessions)
  {
    forall name | name !in gauge.seeded ensures Pending(gauge, name) == 0 {
      assert Serving(sessions, name) == {};
    }
  }

  lemma RegisterSeeds(gauge: Gauge, gens: seq<Generation>, sessions: seq<Session>, c: Config, g: Generation)
    requires ValidConfig(c) && NamesSeeded(gauge, gens, sessions) && g.nodes == Registry(c)
    ensures NamesSeeded(Register(gauge, c.nodes.Keys), gens + [g], sessions)
  {
  }

  lemma GaugeKept(s: State, x: Action)
    requires IdsOk(s.sessions) && ActivesOk(s.gens, s.sessions) && FlagsAllOk(s.sessions)
    requires NamesSeeded(s.gauge, s.gens, s.sessions) && GaugeOk(s.gauge, s.sessions)
    ensures var t := Apply(s, x); NamesSeeded(t.gauge, t.gens, t.sessions) && GaugeOk(t.gauge, t.sessions)
  {
    hide BeginStep, LeaveStep, ValidConfig, ValidFqdn, NamesSeeded, GaugeOk, Register, Proven, Deliverable,
      IdsOk, ActivesOk, FlagsAllOk;
    match x {
      case Begin(gen, payload) => BeginGauge(s, gen, payload);
      case Leave(i) => LeaveGauge(s, i);
      case StartVerify(_, _) => SessionGauge(s, x);
      case FinishVerify(_, _, _, _) => SessionGauge(s, x);
      case MarkClosed(_) => SessionGauge(s, x);
      case Configure(c) => ConfigureGauge(s, c);
      case _ =>
    }
  }

  lemma SessionGauge(s: State, x: Action)
    requires x.StartVerify? || x.FinishVerify? || x.MarkClosed?
    requires NamesSeeded(s.gauge, s.gens, s.sessions) && GaugeOk(s.gauge, s.sessions)
    ensures var t := Apply(s, x); NamesSeeded(t.gauge, t.gens, t.sessions) && GaugeOk(t.gauge, t.sessions)
  {
    hide NamesSeeded, GaugeOk, Proven, Deliverable;
    var t := Apply(s, x);
    if t != s {
      UpdateGauge(s.gauge, s.gens, t.gens, s.sessions, x.session, t.sessions[x.session]);
    }
  }

  lemma ConfigureGauge(s: State, c: Config)
    requires NamesSeeded(s.gauge, s.gens, s.sessions) && GaugeOk(s.gauge, s.sessions)
    ensures var t := Apply(s, Configure(c)); NamesSeeded(t.gauge, t.gens, t.sessions) && GaugeOk(t.gauge, t.sessions)
  {
    hide ValidConfig, NamesSeeded, GaugeOk, Register;
    var t := Apply(s, Configure(c));
    if ValidConfig(c) {
      RegisterGauge(s.gauge, s.gens, c.nodes.Keys, s.sessions);
      RegisterSeeds(s.gauge, s.gens, s.sessions, c, t.gens[|s.gens|]);
    }
  }

  // ---------------------------------------------------------------- signatures

  ghost predicate Matches(a: Agent, n: nat, raw: Document)
  {
    && a.responded && raw.ChallengeDoc?
    && raw.challenge.fqdn == a.fqdn && raw.challenge.trustDomain == a.trustDomain
    && raw.challenge.keyThumbprint == Thumbprint(JwkFor(Honest(n)))
  }

  /** An honest attempt signs at most one document, and only one that names itself. */
  ghost predicate SignedOk(signed: set<(nat, Document)>, agents: seq<Agent>)
  {
    && (forall p :: p in signed ==> p.0 < |agents| && Matches(agents[p.0], p.0, p.1))
    && forall p, q :: p in signed && q in signed && p.0 == q.0 ==> p == q
  }

  lemma RespondSigned(s: State, n: nat, raw: Document, reading: int)
    requires SignedOk(s.signed, s.agents)
    ensures var t := RespondStep(s, n, raw, reading); SignedOk(t.signed, t.agents)
  {
  }

  lemma SignedKept(s: State, x: Action)
    requires SignedOk(s.signed, s.agents)
    ensures SignedOk(Apply(s, x).signed, Apply(s, x).agents)
  {
    match x {
      case Respond(n, raw, reading) => RespondSigned(s, n, raw, reading);
      case BeginAgent(fqdn, domain) =>
      case CloseAgent(n) =>
      case _ =>
    }
  }

  // ---------------------------------------------------------------- approvals

  /** The session behind an approval, and what its proof shows about an honest key. */
  ghost predicate ApprovalOk(s: State, p: Approval)
  {
    && p.session < |s.sessions|
    && var a := s.sessions[p.session];
       && a.gen == p.gen < |s.gens| && Settled(a)
       && p.name == a.node.name && p.agentId == AgentId(s.gens[p.gen].trustDomain, p.name)
       && p.selectors == ["fqdn:" + a.node.fqdn]
       && a.issued <= p.checked <= p.at <= s.clock && Unix(p.checked) < a.challenge.expiresAt
       && (KeyOf(a.request.jwk).Some? && KeyOf(a.request.jwk).value.Honest? ==>
             (KeyOf(a.request.jwk).value.attempt, a.raw) in s.signed)
  }

  ghost predicate ApprovalsOk(s: State)
  {
    && (forall k: nat :: k < |s.approvals| ==> ApprovalOk(s, s.approvals[k]))
    && forall j: nat, k: nat :: j < k < |s.approvals| ==> s.approvals[j].session != s.approvals[k].session
  }

  lemma ApprovalStable(s: State, t: State, p: Approval)
    requires Extends(s, t) && ApprovalOk(s, p)
    ensures ApprovalOk(t, p)
  {
    assert SameSession(s.sessions[p.session], t.sessions[p.session]);
    assert SameGeneration(s.gens[p.gen], t.gens[p.gen]);
  }

  lemma FinishApproves(s: State, i: nat, body: Document, ended: bool, late: nat)
    requires SessionsOk(s) && FlagsAllOk(s.sessions) && ApprovalsOk(s)
    ensures var t := FinishVerifyStep(s, i, body, ended, late);
      t.approvals != s.approvals ==>
        && t.approvals == s.approvals + [ResultOf(s, i, late)] && ApprovalOk(t, ResultOf(s, i, late))
        && forall k: nat :: k < |s.approvals| ==> s.approvals[k].session != i
  {
    var t := FinishVerifyStep(s, i, body, ended, late);
    if t.approvals != s.approvals {
      assert forall k: nat :: k < |s.approvals| ==> ApprovalOk(s, s.approvals[k]);
      assert Issued(s.sessions[i], i, s.gens[s.sessions[i].gen]);
      assert FlagsOk(s.sessions[i]);
    }
  }

  lemma OnlyFinishApproves(s: State, x: Action)
    requires !x.FinishVerify?
    ensures Apply(s, x).approvals == s.approvals
  {
  }

  lemma ApprovalsKept(s: State, x: Action)
    requires SessionsOk(s) && FlagsAllOk(s.sessions) && ApprovalsOk(s)
    ensures ApprovalsOk(Apply(s, x))
  {
    hide BeginStep, FinishVerifyStep, StartVerifyStep, MarkClosedStep, LeaveStep, RespondStep, ValidConfig,
      ValidFqdn, ApprovalOk, Extends;
    var t := Apply(s, x);
    StepExtends(s, x);
    forall k: nat | k < |s.approvals| ensures ApprovalOk(t, s.approvals[k]) {
      ApprovalStable(s, t, s.approvals[k]);
    }
    if x.FinishVerify? {
      FinishApproves(s, x.session, x.body, x.ended, x.late);
    } else {
      OnlyFinishApproves(s, x);
    }
  }

  // ---------------------------------------------------------------- quota

  /** Times of a node's approvals by one generation, oldest first. */
  ghost function TimesOf(ps: seq<Approval>, gen: nat, name: string): seq<int>
  {
    if |ps| == 0 then []
    else
      var rest := TimesOf(ps[..|ps| - 1], gen, name);
      var p := ps[|ps| - 1];
      if p.gen == gen && p.name == name then rest + [p.at] else rest
  }

  ghost predicate QuotaOk(s: State)
  {
    forall g: nat, name :: g < |s.gens| ==> Tracks(Recent(s.gens[g], name), TimesOf(s.approvals, g, name), s.clock)
  }

  lemma {:induction false} TimesOfNone(ps: seq<Approval>, gen: nat, name: string)
    requires forall p :: p in ps ==> p.gen < gen
    ensures TimesOf(ps, gen, name) == []
  {
    if |ps| > 0 {
      TimesOfNone(ps[..|ps| - 1], gen, name);
    }
  }

  /** What a finished Verify does to one node's window and history in one generation. */
  lemma FinishTimes(s: State, i: nat, body: Document, ended: bool, late: nat, g: nat, name: string)
    requires g < |s.gens|
    ensures var t := FinishVerifyStep(s, i, body, ended, late);
      var recent, h := Recent(s.gens[g], name), TimesOf(s.approvals, g, name);
      var recent', h' := Recent(t.gens[g], name), TimesOf(t.approvals, g, name);
      && t.clock == s.clock && |t.gens| == |s.gens|
      && ((recent' == recent && h' == h) ||
          (recent' == Charged(recent, s.clock) && h' == if Admits(recent, s.clock) then h + [s.clock] else h))
  {
    var t := FinishVerifyStep(s, i, body, ended, late);
    if t.approvals != s.approvals {
      assert t.approvals[..|t.approvals| - 1] == s.approvals;
    }
  }

  lemma FinishQuota(s: State, i: nat, body: Document, ended: bool, late: nat)
    requires QuotaOk(s)
    ensures QuotaOk(FinishVerifyStep(s, i, body, ended, late))
  {
    hide Tracks, Charged, Admits, TimesOf, Recent, Proven, Deliverable, ResultOf;
    var t := FinishVerifyStep(s, i, body, ended, late);
    forall g: nat, name | g < |t.gens| ensures Tracks(Recent(t.gens[g], name), TimesOf(t.approvals, g, name), t.clock) {
      assert Tracks(Recent(s.gens[g], name), TimesOf(s.approvals, g, name), s.clock);
      FinishTimes(s, i, body, ended, late, g, name);
      ChargeTracks(Recent(s.gens[g], name), TimesOf(s.approvals, g, name), s.clock, s.clock);
    }
  }

  /** Steps other than FinishVerify add no approval and change no window; the clock only grows. */
  lemma QuietQuota(s: State, x: Action)
    requires !x.FinishVerify?
    ensures var t := Apply(s, x);
      && t.approvals == s.approvals && t.clock >= s.clock && |t.gens| >= |s.gens|
      && (forall g: nat :: g < |s.gens| ==> t.gens[g].recent == s.gens[g].recent)
      && forall g: nat :: |s.gens| <= g < |t.gens| ==> t.gens[g].recent == map[]
  {
  }

  lemma QuotaKept(s: State, x: Action)
    requires ApprovalsOk(s) && QuotaOk(s)
    ensures QuotaOk(Apply(s, x))
  {
    var t := Apply(s, x);
    if x.FinishVerify? {
      FinishQuota(s, x.session, x.body, x.ended, x.late);
    } else {
      QuietQuota(s, x);
      forall g: nat, name | g < |t.gens|
        ensures Tracks(Recent(t.gens[g], name), TimesOf(t.approvals, g, name), t.clock)
      {
        if g < |s.gens| {
          assert Tracks(Recent(s.gens[g], name), TimesOf(s.approvals, g, name), s.clock);
        } else {
          TimesOfNone(s.approvals, g, name);
        }
      }
    }
  }

  // ---------------------------------------------------------------- whole runs

  ghost predicate Inv(s: State)
  {
    && RegistriesOk(s.gens) && SessionsOk(s) && FlagsAllOk(s.sessions) && IdsOk(s.sessions)
    && ActivesOk(s.gens, s.sessions)
    && NamesSeeded(s.gauge, s.gens, s.sessions) && GaugeOk(s.gauge, s.sessions)
    && SignedOk(s.signed, s.agents) && ApprovalsOk(s) && QuotaOk(s)
  }

  lemma InvInit()
    ensures Inv(INIT)
  {
    forall name ensures Serving([], name) == {} {
    }
  }

  lemma InvKept(s: State, x: Action)
    requires Inv(s)
    ensures Inv(Apply(s, x))
  {
    RegistriesKept(s, x);
    SessionsKept(s, x);
    FlagsKept(s, x);
    ActivesKept(s, x);
    GaugeKept(s, x);
    SignedKept(s, x);
    ApprovalsKept(s, x);
    QuotaKept(s, x);
  }

  lemma {:induction false} InvHolds(xs: seq<Action>)
    ensures Inv(Run(xs))
  {
    if |xs| == 0 {
      InvInit();
    } else {
      InvHolds(xs[..|xs| - 1]);
      InvKept(Run(xs[..|xs| - 1]), xs[|xs| - 1]);
    }
  }
}
