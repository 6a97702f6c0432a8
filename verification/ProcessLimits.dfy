/** The documented limits speak of the plugin process; the code keeps them per configured server. */
module ProcessLimits {
  import opened Clock
  import opened Counting
  import opened Text
  import opened Wire
  import opened SuccessQuota
  import opened Attestation
  import opened AttestationSafety
  import opened AttestationTheorems
  import opened AttestationCompleteness

  // ---------------------------------------------------------------- a sample configuration

  const SAMPLE_NODE: string := "a"
  const SAMPLE_FQDN: string := "a.b"
  const SAMPLE_DOMAIN: string := "c.d"
  const SAMPLE_CONFIG: Config :=
    Config(true, true, SAMPLE_DOMAIN, 18091, map[SAMPLE_NODE := Policy(SAMPLE_FQDN, [Address(5, true)])])

  lemma ShortName(a: char, b: char)
    requires Alnum(a) && Alnum(b)
    ensures ValidFqdn([a, '.', b]) && ValidLabel([a])
  {
    SplitJoin([[a], [b]], '.');
    assert Join([[a], [b]], '.') == [a, '.', b];
  }

  lemma SampleValid()
    ensures ValidConfig(SAMPLE_CONFIG) && ValidFqdn(SAMPLE_FQDN) && ValidFqdn(SAMPLE_DOMAIN)
    ensures SAMPLE_FQDN in Registry(SAMPLE_CONFIG) && Registry(SAMPLE_CONFIG)[SAMPLE_FQDN].name == SAMPLE_NODE
  {
    hide ValidFqdn, ValidLabel;
    ShortName('a', 'b');
    ShortName('c', 'd');
    assert SAMPLE_FQDN == ['a', '.', 'b'] && SAMPLE_DOMAIN == ['c', '.', 'd'] && SAMPLE_NODE == ['a'];
    assert SAMPLE_CONFIG.nodes[SAMPLE_NODE].fqdn == SAMPLE_FQDN;
  }

  /** Generation g serves the sample configuration. */
  ghost predicate Serves(s: State, g: nat)
  {
    && g < |s.gens| && s.gens[g].trustDomain == SAMPLE_DOMAIN
    && SAMPLE_FQDN in s.gens[g].nodes && s.gens[g].nodes[SAMPLE_FQDN].name == SAMPLE_NODE
  }

  lemma ServesOn(s: State, t: State, g: nat)
    requires Serves(s, g) && Extends(s, t)
    ensures Serves(t, g)
  {
    assert SameGeneration(s.gens[g], t.gens[g]);
  }

  lemma ConfigureAdds(s: State)
    ensures var t := Apply(s, Configure(SAMPLE_CONFIG));
      t.(gens := s.gens, gauge := s.gauge) == s && |t.gens| == |s.gens| + 1 && Serves(t, |s.gens|)
  {
    hide ValidConfig, Registry;
    SampleValid();
  }

  /** Configured k times, and nothing else. */
  function Configured(k: nat): seq<Action> { seq(k, _ => Configure(SAMPLE_CONFIG)) }

  lemma {:induction false} ConfiguredRun(k: nat)
    ensures var s := Run(Configured(k));
      && s.clock == 0 && s.sessions == [] && s.agents == [] && s.approvals == [] && |s.gens| == k
      && forall g: nat :: g < k ==> Serves(s, g)
  {
    hide Apply, Extends;
    if k > 0 {
      ConfiguredRun(k - 1);
      assert Configured(k)[..k - 1] == Configured(k - 1);
      var s := Run(Configured(k - 1));
      ConfigureAdds(s);
      StepExtends(s, Configure(SAMPLE_CONFIG));
      forall g: nat | g < k - 1 ensures Serves(Run(Configured(k)), g) {
        ServesOn(s, Run(Configured(k)), g);
      }
    }
  }

  /** What the kinds of step leave alone. */
  lemma StepLeaves(s: State, x: Action)
    ensures var t := Apply(s, x);
      && (!x.Tick? ==> t.clock == s.clock) && (!x.Configure? ==> |t.gens| == |s.gens|)
      && |t.sessions| <= |s.sessions| + (if x.Begin? then 1 else 0)
      && (!x.FinishVerify? ==> t.approvals == s.approvals)
  {
    hide ValidConfig, ValidFqdn, Proven, Deliverable, Signable, Register;
  }

  /** A generation serves no more sessions than there are. */
  lemma ActiveBound(active: map<Token, nat>, sessions: seq<Session>, g: nat)
    requires ActiveOk(active, sessions, g)
    ensures |active| == |ServingBy(sessions, g)| <= |sessions|
  {
    var serving := ServingBy(sessions, g);
    InjectionSize(serving, active);
    var indices: set<int> := set i | i in serving;
    assert indices == serving;
    IntervalSize(indices, 0, |sessions|);
  }

  /** A generation's sessions in service. */
  ghost function ServingBy(sessions: seq<Session>, g: nat): set<nat>
  {
    set i: nat | i < |sessions| && sessions[i].gen == g && InService(sessions[i])
  }

  lemma {:induction false} InjectionSize(serving: set<nat>, active: map<Token, nat>)
    requires forall i :: i in serving ==> Random(2 * i) in active && active[Random(2 * i)] == i
    requires forall id :: id in active ==> active[id] in serving && id == Random(2 * active[id])
    ensures |active| == |serving|
  {
    if serving == {} {
      assert active.Keys == {};
    } else {
      var i :| i in serving;
      InjectionSize(serving - {i}, active - {Random(2 * i)});
      assert (active - {Random(2 * i)}).Keys == active.Keys - {Random(2 * i)};
    }
  }

  // ---------------------------------------------------------------- pending sessions

  /** All sessions in service, by whatever generation. */
  ghost function AllServing(sessions: seq<Session>): set<nat>
  {
    set i: nat | i < |sessions| && InService(sessions[i])
  }

  /** Thirty-two pending sessions, for every run of a process that was configured at most times times. */
  ghost predicate ProcessCapacity(times: nat)
  {
    forall xs: seq<Action> :: |Run(xs).gens| <= times ==> |AllServing(Run(xs).sessions)| <= CAPACITY
  }

  const SAMPLE_REQUEST: Document := RequestDoc(Request(1, SAMPLE_FQDN, JwkFor(Foreign(0))), Marshalled)

  /** k sessions in service: as many as can be by generation 0, the rest by generation 1. */
  ghost predicate Busy(s: State, k: nat)
  {
    && |s.gens| == 2 && Serves(s, 0) && Serves(s, 1) && |s.sessions| == k
    && (forall i: nat :: i < k ==> InService(s.sessions[i]))
    && |s.gens[0].active| == (if k < CAPACITY then k else CAPACITY) && |s.gens[1].active| + |s.gens[0].active| == k
  }

  lemma SampleFits()
    ensures Fits(SAMPLE_REQUEST)
  {
    RequestIsSmall(SAMPLE_FQDN, Foreign(0));
  }

  lemma BeginBusies(s: State, k: nat)
    requires Inv(s) && Busy(s, k) && k <= CAPACITY
    ensures Busy(BeginStep(s, if k < CAPACITY then 0 else 1, SAMPLE_REQUEST), k + 1)
  {
    hide Size, RegistriesOk, SessionsOk, FlagsAllOk, NamesSeeded, GaugeOk, SignedOk, ApprovalsOk, QuotaOk;
    SampleFits();
    var gen := if k < CAPACITY then 0 else 1;
    assert ActiveOk(s.gens[gen].active, s.sessions, gen);
    assert Random(2 * k) !in s.gens[gen].active;
  }

  lemma {:induction false} BusyRun(k: nat) returns (xs: seq<Action>)
    requires k <= CAPACITY + 1
    ensures Busy(Run(xs), k)
  {
    hide Apply, Inv;
    if k == 0 {
      xs := Configured(2);
      ConfiguredRun(2);
      InvHolds(xs);
      NothingActive(Run(xs));
    } else {
      var ys := BusyRun(k - 1);
      InvHolds(ys);
      BeginBusies(Run(ys), k - 1);
      var x := Begin(if k - 1 < CAPACITY then 0 else 1, SAMPLE_REQUEST);
      RunMore(ys, x);
      BeginIsStep(Run(ys), x);
      xs := ys + [x];
    }
  }

  lemma BeginIsStep(s: State, x: Action)
    requires x.Begin?
    ensures Apply(s, x) == BeginStep(s, x.gen, x.payload)
  {
  }

  lemma NothingActive(s: State)
    requires Inv(s) && s.sessions == []
    ensures forall g: nat :: g < |s.gens| ==> |s.gens[g].active| == 0
  {
    forall g: nat | g < |s.gens| ensures |s.gens[g].active| == 0 {
      ActiveBound(s.gens[g].active, s.sessions, g);
    }
  }

  /** Thirty-two sessions of one server and one of the next are in service at once. */
  lemma ThirtyThreeAfterConfigure() returns (xs: seq<Action>)
    ensures |Run(xs).gens| == 2 && |AllServing(Run(xs).sessions)| == CAPACITY + 1
  {
    hide Run;
    xs := BusyRun(CAPACITY + 1);
    var serving: set<int> := set i | i in AllServing(Run(xs).sessions);
    assert serving == AllServing(Run(xs).sessions);
    IntervalSize(serving, 0, CAPACITY + 1);
  }

  lemma OneServerCapacity(xs: seq<Action>)
    requires |Run(xs).gens| <= 1
    ensures |AllServing(Run(xs).sessions)| <= CAPACITY
  {
    hide Run, RegistriesOk, FlagsAllOk, NamesSeeded, GaugeOk, SignedOk, ApprovalsOk, QuotaOk;
    InvHolds(xs);
    var s := Run(xs);
    SessionsHaveServers(s);
    if |s.gens| == 0 {
      assert AllServing(s.sessions) == {};
    } else {
      assert AllServing(s.sessions) == ServingBy(s.sessions, 0);
      assert ActiveOk(s.gens[0].active, s.sessions, 0);
      ActiveBound(s.gens[0].active, s.sessions, 0);
    }
  }

  lemma SessionsHaveServers(s: State)
    requires Inv(s)
    ensures forall i: nat :: i < |s.sessions| ==> s.sessions[i].gen < |s.gens|
  {
  }

  /** The documented limit of 32 pending sessions per process holds exactly for processes configured at most
      once: every Configure starts a new table, and old sessions go on. */
  lemma ProcessCapacityExactly(times: nat)
    ensures ProcessCapacity(times) <==> times <= 1
  {
    hide Run;
    if times <= 1 {
      forall xs: seq<Action> | |Run(xs).gens| <= times ensures |AllServing(Run(xs).sessions)| <= CAPACITY {
        OneServerCapacity(xs);
      }
    } else {
      var xs := ThirtyThreeAfterConfigure();
      assert |AllServing(Run(xs).sessions)| > CAPACITY;
    }
  }

  // ---------------------------------------------------------------- honest exchanges at one instant

  function Quick(s: State, gen: nat): Course { Course(gen, |s.agents|, SAMPLE_FQDN, [], s.clock, [], []) }

  lemma AttemptBegins(s: State)
    ensures var t := Apply(s, BeginAgent(SAMPLE_FQDN, SAMPLE_DOMAIN));
      t == s.(agents := s.agents + [Agent(SAMPLE_FQDN, SAMPLE_DOMAIN, false, None, false)])
  {
    hide ValidFqdn;
    SampleValid();
  }

  lemma {:induction false} Pow10AtLeast(n: nat)
    ensures n >= 3 ==> Pow10(n) >= 1000
  {
    if n >= 4 {
      Pow10AtLeast(n - 1);
    } else if n == 3 {
      assert Pow10(2) == 10 * Pow10(1);
    }
  }

  lemma SampleCanBegin(xs: seq<Action>, gen: nat, n: nat)
    requires var s := Run(xs);
      Serves(s, gen) && |s.sessions| < CAPACITY && s.clock == 0 && n < |s.agents|
        && s.agents[n] == Agent(SAMPLE_FQDN, SAMPLE_DOMAIN, false, None, false)
    ensures CanBegin(Run(xs), gen, n, SAMPLE_FQDN)
  {
    hide Run, Pow10, RegistryOk;
    InvHolds(xs);
    var s := Run(xs);
    ServersOk(s, gen);
    ActiveBound(s.gens[gen].active, s.sessions, gen);
    Pow10AtLeast(19);
  }

  lemma ServersOk(s: State, gen: nat)
    requires Inv(s) && gen < |s.gens|
    ensures RegistryOk(s.gens[gen]) && ActiveOk(s.gens[gen].active, s.sessions, gen)
  {
  }

  lemma RoomAdmits(xs: seq<Action>, gen: nat, name: string)
    requires gen < |Run(xs).gens| && |TimesOf(Run(xs).approvals, gen, name)| < QUOTA
    ensures Admits(Recent(Run(xs).gens[gen], name), Run(xs).clock)
  {
    hide Run, Inv, TimesOf;
    InvHolds(xs);
    var s := Run(xs);
    QuotaTracks(s, gen, name);
  }

  lemma QuotaTracks(s: State, gen: nat, name: string)
    requires Inv(s) && gen < |s.gens|
    ensures Tracks(Recent(s.gens[gen], name), TimesOf(s.approvals, gen, name), s.clock)
  {
  }

  /** The steps before the last one of a quick exchange. */
  lemma QuickLeaves(xs: seq<Action>, w: Course, e: Exchange)
    requires w.asked == w.told == w.fetch == []
    ensures var s, told, t := Run(xs), Run(UntilTold(xs, w, e)), Run(UntilFetched(xs, w, e));
      && s.clock == told.clock == t.clock && |t.gens| == |s.gens| && |t.sessions| <= |s.sessions| + 1
      && t.approvals == s.approvals
  {
    hide Run, Apply;
    var a, b, c := UntilAsked(xs, w), UntilTold(xs, w, e), UntilFetched(xs, w, e);
    var x, y, z := Begin(w.gen, RequestOf(w.fqdn, w.n)), Respond(w.n, ChallengeDoc(e.c, Marshalled), w.reading),
      StartVerify(e.i, ReadyDoc(Ready(1, e.c.id), Marshalled));
    assert a == xs + [x] && b == a + [y] && c == b + [z];
    RunMore(xs, x);
    RunMore(a, y);
    RunMore(b, z);
    StepLeaves(Run(xs), x);
    StepLeaves(Run(a), y);
    StepLeaves(Run(b), z);
  }

  /** Two generations with the sample configuration, all approvals so far at time zero. */
  ghost predicate AtStart(s: State, used: seq<nat>)
  {
    && s.clock == 0 && |s.gens| == 2 && |used| == 2 && |s.sessions| <= |s.approvals| == used[0] + used[1]
    && (forall p :: p in s.approvals ==> p.name == SAMPLE_NODE && p.at == 0)
    && forall g: nat :: g < 2 ==> Serves(s, g) && |TimesOf(s.approvals, g, SAMPLE_NODE)| == used[g]
  }

  /** One more approval by a generation that has quota left. */
  lemma OneMore(xs: seq<Action>, gen: nat, used: seq<nat>) returns (ys: seq<Action>)
    requires AtStart(Run(xs), used) && gen < 2 && used[gen] < QUOTA && used[0] + used[1] < CAPACITY
    ensures AtStart(Run(ys), used[gen := used[gen] + 1])
  {
    hide Run, Apply, CanBegin, Undisturbed, Admits, UntilTold, UntilFetched, Extends, TimesOf;
    var begun := xs + [BeginAgent(SAMPLE_FQDN, SAMPLE_DOMAIN)];
    AttemptBegins(Run(xs));
    RunMore(xs, BeginAgent(SAMPLE_FQDN, SAMPLE_DOMAIN));
    var w := Quick(Run(xs), gen);
    SampleCanBegin(begun, gen, w.n);
    var e := ExchangeAt(Run(begun), gen, w.n, SAMPLE_FQDN);
    NothingDisturbs(w, e);
    QuickLeaves(begun, w, e);
    var fetched := UntilFetched(begun, w, e);
    RoomAdmits(fetched, gen, SAMPLE_NODE);
    HonestRunApproved(begun, w, e, 0);
    var x := FinishVerify(e.i, SignProof(Honest(w.n), ChallengeDoc(e.c, Marshalled)), false, 0);
    ys := fetched + [x];
    RunMore(fetched, x);
    StepLeaves(Run(fetched), x);
    ServesLater(begun, w, e, x);
    var p := Approval(e.i, gen, SAMPLE_NODE, AgentId(e.c.trustDomain, SAMPLE_NODE), ["fqdn:" + e.node.fqdn], 0, 0);
    assert Run(ys).approvals == Run(xs).approvals + [p];
    CountsOne(Run(xs).approvals, p, 0);
    CountsOne(Run(xs).approvals, p, 1);
  }

  lemma NothingDisturbs(w: Course, e: Exchange)
    requires w.asked == w.told == w.fetch == []
    ensures Undisturbed(w, e)
  {
  }

  lemma ServesLater(xs: seq<Action>, w: Course, e: Exchange, x: Action)
    ensures var ys := UntilFetched(xs, w, e) + [x];
      forall g: nat :: Serves(Run(xs), g) ==> Serves(Run(ys), g)
  {
    hide Run;
    var ys := UntilFetched(xs, w, e) + [x];
    assert ys[..|xs|] == xs;
    RunExtends(ys, |xs|);
    forall g: nat | Serves(Run(xs), g) ensures Serves(Run(ys), g) {
      ServesOn(Run(xs), Run(ys), g);
    }
  }

  lemma CountsOne(before: seq<Approval>, p: Approval, g: nat)
    ensures TimesOf(before + [p], g, SAMPLE_NODE) ==
      TimesOf(before, g, SAMPLE_NODE) + if p.gen == g && p.name == SAMPLE_NODE then [p.at] else []
  {
    assert (before + [p])[..|before|] == before;
  }

  lemma {:induction false} Fill(xs: seq<Action>, gen: nat, used: seq<nat>, k: nat) returns (ys: seq<Action>)
    requires AtStart(Run(xs), used) && gen < 2 && used[gen] + k <= QUOTA && used[0] + used[1] + k < CAPACITY
    ensures AtStart(Run(ys), used[gen := used[gen] + k])
    decreases k
  {
    hide Run, AtStart;
    AtStartSize(Run(xs), used);
    if k == 0 {
      ys := xs;
      assert used[gen := used[gen]] == used;
    } else {
      assert used[gen := used[gen] + 1][gen := used[gen] + k] == used[gen := used[gen] + k];
      var more := OneMore(xs, gen, used);
      ys := Fill(more, gen, used[gen := used[gen] + 1], k - 1);
    }
  }

  lemma AtStartSize(s: State, used: seq<nat>)
    requires AtStart(s, used)
    ensures |used| == 2
  {
  }

  // ---------------------------------------------------------------- approvals per minute

  /** A node's approvals inside [start, start + 60 s) by the whole plugin process. */
  ghost function InProcessWindow(ps: seq<Approval>, name: string, start: int): set<int>
  {
    set k | 0 <= k < |ps| && ps[k].name == name && start <= ps[k].at < start + MINUTE
  }

  /** Six per node and minute, for every run of a process that was configured at most times times. */
  ghost predicate ProcessQuota(times: nat)
  {
    forall xs: seq<Action>, name, start ::
      |Run(xs).gens| <= times ==> |InProcessWindow(Run(xs).approvals, name, start)| <= QUOTA
  }

  /** Six approvals from one generation and one from the next share the same instant. */
  lemma SevenAfterConfigure() returns (xs: seq<Action>)
    ensures |Run(xs).gens| == 2 && |InProcessWindow(Run(xs).approvals, SAMPLE_NODE, 0)| == 7
  {
    hide Run;
    ConfiguredRun(2);
    NoTimes();
    var full := Fill(Configured(2), 0, [0, 0], 6);
    xs := Fill(full, 1, [6, 0], 1);
    IntervalSize(InProcessWindow(Run(xs).approvals, SAMPLE_NODE, 0), 0, 7);
  }

  lemma NoTimes()
    ensures forall g: nat :: TimesOf([], g, SAMPLE_NODE) == []
  {
  }

  lemma OneGenerationWindow(xs: seq<Action>, name: string, start: int)
    requires |Run(xs).gens| <= 1
    ensures |InProcessWindow(Run(xs).approvals, name, start)| <= QUOTA
  {
    hide Run;
    InvHolds(xs);
    var s := Run(xs);
    ApprovalsHaveServers(s);
    if |s.gens| == 0 {
      assert InProcessWindow(s.approvals, name, start) == {};
    } else {
      assert InProcessWindow(s.approvals, name, start) == InWindow(s.approvals, 0, name, start);
      SlidingQuota(xs, 0, name, start);
    }
  }

  lemma ApprovalsHaveServers(s: State)
    requires Inv(s)
    ensures forall k: nat :: k < |s.approvals| ==> s.approvals[k].gen < |s.gens|
  {
    assert forall k: nat :: k < |s.approvals| ==> ApprovalOk(s, s.approvals[k]);
  }

  /** The documented limit per process holds exactly for processes configured at most once: every
      Configure starts a new success list. */
  lemma ProcessQuotaExactly(times: nat)
    ensures ProcessQuota(times) <==> times <= 1
  {
    hide Run;
    if times <= 1 {
      forall xs: seq<Action>, name, start | |Run(xs).gens| <= times
        ensures |InProcessWindow(Run(xs).approvals, name, start)| <= QUOTA
      {
        OneGenerationWindow(xs, name, start);
      }
    } else {
      var xs := SevenAfterConfigure();
      assert |InProcessWindow(Run(xs).approvals, SAMPLE_NODE, 0)| > QUOTA;
    }
  }

  // ---------------------------------------------------------------- the charge can come late

  /** One approval, checked in time and charged late: at any delay after the challenge was issued, with any wait
      between the check and the charge that puts the check before the expiry. */
  lemma LateCharge(delay: nat, wait: nat) returns (xs: seq<Action>)
    requires wait <= delay < CHALLENGE_TTL + wait
    ensures var s := Run(xs);
      && |s.approvals| == 1 && s.approvals[0].session < |s.sessions|
      && s.approvals[0].at == s.sessions[s.approvals[0].session].issued + delay
      && s.approvals[0].checked == s.approvals[0].at - wait
  {
    hide Run, Apply, CanBegin, Undisturbed, Admits, UntilTold, UntilFetched, Extends, TimesOf;
    ConfiguredRun(1);
    assert Serves(Run(Configured(1)), 0);
    NoTimes();
    var begun := Configured(1) + [BeginAgent(SAMPLE_FQDN, SAMPLE_DOMAIN)];
    AttemptBegins(Run(Configured(1)));
    RunMore(Configured(1), BeginAgent(SAMPLE_FQDN, SAMPLE_DOMAIN));
    var w := Course(0, 0, SAMPLE_FQDN, [], 0, [], [Tick(delay)]);
    SampleCanBegin(begun, 0, 0);
    var e := ExchangeAt(Run(begun), 0, 0, SAMPLE_FQDN);
    WaitLeaves(begun, w, e, delay);
    var fetched := UntilFetched(begun, w, e);
    RoomAdmits(fetched, 0, SAMPLE_NODE);
    HonestRunApproved(begun, w, e, wait);
    var x := FinishVerify(e.i, SignProof(Honest(0), ChallengeDoc(e.c, Marshalled)), false, wait);
    xs := fetched + [x];
    ReachesFetched(begun, w, e);
    RunMore(fetched, x);
    StepExtends(Run(fetched), x);
    IssuedStays(Run(fetched), Run(xs), e.i);
  }

  ghost predicate WaitsAtMost(s: State, wait: nat)
  {
    forall p :: p in s.approvals ==> p.at - p.checked <= wait
  }

  ghost predicate InTime(s: State)
  {
    forall p :: p in s.approvals ==>
      p.session < |s.sessions| && p.at < s.sessions[p.session].issued + CHALLENGE_TTL
  }

  /** Every approval is charged before the deadline of its challenge, in every run in which no approval waits longer
      than that between its expiry check and its charge. */
  ghost predicate DeadlineHolds(wait: nat) { forall xs :: WaitsAtMost(Run(xs), wait) ==> InTime(Run(xs)) }

  /** The deadline of 120 seconds holds for approvals exactly when the charge never reads a later clock than the
      expiry check. */
  lemma DeadlineHoldsExactly(wait: nat)
    ensures DeadlineHolds(wait) <==> wait == 0
  {
    hide Run;
    if wait == 0 {
      forall xs | WaitsAtMost(Run(xs), 0) ensures InTime(Run(xs)) {
        var s := Run(xs);
        forall p | p in s.approvals
          ensures p.session < |s.sessions| && p.at < s.sessions[p.session].issued + CHALLENGE_TTL
        {
          var k :| 0 <= k < |s.approvals| && s.approvals[k] == p;
          OneBounded(xs, k);
        }
      }
    } else {
      var xs := LateCharge(CHALLENGE_TTL, 1);
      var s := Run(xs);
      assert s.approvals[0] in s.approvals;
      assert WaitsAtMost(s, wait) && !InTime(s);
    }
  }

  lemma OneBounded(xs: seq<Action>, k: nat)
    requires k < |Run(xs).approvals|
    ensures var s := Run(xs);
      var p := s.approvals[k];
      && p.session < |s.sessions| && p.checked <= p.at && p.checked < s.sessions[p.session].issued + CHALLENGE_TTL
  {
    hide Run;
    BoundedSuccess(xs);
  }

  lemma IssuedStays(s: State, t: State, i: nat)
    requires Extends(s, t) && i < |s.sessions|
    ensures i < |t.sessions| && t.sessions[i].issued == s.sessions[i].issued
  {
    assert SameSession(s.sessions[i], t.sessions[i]);
  }

  lemma WaitLeaves(xs: seq<Action>, w: Course, e: Exchange, delay: nat)
    requires w.asked == w.told == [] && w.fetch == [Tick(delay)]
    ensures Undisturbed(w, e)
    ensures var s, told, t := Run(xs), Run(UntilTold(xs, w, e)), Run(UntilFetched(xs, w, e));
      s.clock == told.clock && t.clock == s.clock + delay && |t.gens| == |s.gens| && t.approvals == s.approvals
  {
    hide Run, Apply;
    var quick := w.(fetch := []);
    QuickLeaves(xs, quick, e);
    var before := UntilFetched(xs, quick, e);
    assert UntilFetched(xs, w, e) == before + [Tick(delay)];
    assert UntilTold(xs, w, e) == UntilTold(xs, quick, e);
    RunMore(before, Tick(delay));
    TickOnly(Run(before), delay);
  }

  lemma TickOnly(s: State, d: nat)
    ensures Apply(s, Tick(d)) == s.(clock := s.clock + d)
  {
  }
}
