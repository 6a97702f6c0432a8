/** The attestation exchange through the responder's store. */
module EndToEnd {
  import opened Clock
  import opened Text
  import opened Wire
  import opened SuccessQuota
  import opened Attestation
  import opened AttestationCompleteness
  import Responder

  /** How the proof travels: the store before it is put, the PUT, what happens to the store until the fetch, and the
      clock readings of the GET. */
  datatype Delivery = Delivery(
    store: Responder.Store, put: Responder.Action, between: seq<Responder.Action>, readings: map<Token, int>, now: int)

  /** What the GET can find. */
  function Served(d: Delivery): Responder.Store
  {
    Responder.Expire(Responder.RunOn(Responder.Apply(d.store, d.put), d.between), d.readings, d.now)
  }

  /** The agent's own proof is put in time, with room, and nobody touches it before the GET, which comes in time. */
  ghost predicate InTime(d: Delivery, n: nat, c: Challenge, issued: int)
  {
    && d.put.Put? && d.put.id == c.id && d.put.body == SignProof(Honest(n), ChallengeDoc(c, Marshalled))
    && Unix(issued) * SECOND <= d.put.validated < c.expiresAt * SECOND
    && |Responder.Expire(d.store, d.put.readings, d.put.now).proofs| < Responder.PROOF_CAPACITY
    && (forall x :: x in d.between ==> !Responder.Touches(x, c.id, c.expiresAt))
    && Unix(Responder.Reading(d.readings, c.id, d.now)) < c.expiresAt
  }

  lemma ServedIsSigned(s: State, gen: nat, n: nat, fqdn: string, d: Delivery)
    requires CanBegin(s, gen, n, fqdn) && InTime(d, n, ChallengeFor(s, gen, n, fqdn), s.clock)
    requires Responder.Inv(d.store) && d.store.fqdn == fqdn
    ensures var c := ChallengeFor(s, gen, n, fqdn);
      c.id in Served(d).proofs && Served(d).proofs[c.id].body == SignProof(Honest(n), ChallengeDoc(c, Marshalled))
  {
    hide ValidFqdn, Pow10, Responder.Apply, Responder.Expire, Responder.RunOn, Responder.Inv, Responder.Touches;
    ChallengeIsGood(s, gen, n, fqdn);
    Responder.PublishedIsServed(d.store, ChallengeFor(s, gen, n, fqdn), n, s.clock, d.put, d.between, d.readings,
      d.now);
  }

  // ---------------------------------------------------------------- one interleaving

  /** A step of the server and the agents, or a request to the node's responder. */
  datatype Joint = OnServer(x: Action) | OnNode(y: Responder.Action)

  datatype Net = Net(server: State, store: Responder.Store)

  function RunAll(fqdn: string, zs: seq<Joint>): Net
  {
    if |zs| == 0 then Net(INIT, Responder.Empty(fqdn))
    else
      var s := RunAll(fqdn, zs[..|zs| - 1]);
      match zs[|zs| - 1]
      case OnServer(x) => s.(server := Apply(s.server, x))
      case OnNode(y) => s.(store := Responder.Apply(s.store, y))
  }

  function ServerPart(zs: seq<Joint>): seq<Action>
  {
    if |zs| == 0 then []
    else ServerPart(zs[..|zs| - 1]) + match zs[|zs| - 1] case OnServer(x) => [x] case OnNode(_) => []
  }

  function NodePart(zs: seq<Joint>): seq<Responder.Action>
  {
    if |zs| == 0 then []
    else NodePart(zs[..|zs| - 1]) + match zs[|zs| - 1] case OnServer(_) => [] case OnNode(y) => [y]
  }

  lemma {:induction false} PartsRun(fqdn: string, zs: seq<Joint>)
    ensures RunAll(fqdn, zs) == Net(Run(ServerPart(zs)), Responder.Run(fqdn, NodePart(zs)))
  {
    hide Apply, Responder.Apply;
    if |zs| > 0 {
      var n := |zs| - 1;
      PartsRun(fqdn, zs[..n]);
      match zs[n] {
        case OnServer(x) =>
          assert NodePart(zs) == NodePart(zs[..n]);
          assert ServerPart(zs)[..|ServerPart(zs)| - 1] == ServerPart(zs[..n]);
        case OnNode(y) =>
          assert ServerPart(zs) == ServerPart(zs[..n]);
          assert NodePart(zs)[..|NodePart(zs)| - 1] == NodePart(zs[..n]);
      }
    }
  }

  lemma {:induction false} PartsConcat(a: seq<Joint>, b: seq<Joint>)
    ensures ServerPart(a + b) == ServerPart(a) + ServerPart(b) && NodePart(a + b) == NodePart(a) + NodePart(b)
    decreases b
  {
    if |b| == 0 {
      assert a + b == a;
    } else {
      assert (a + b)[..|a + b| - 1] == a + b[..|b| - 1];
      PartsConcat(a, b[..|b| - 1]);
    }
  }

  lemma PartsStep(a: seq<Joint>, z: Joint, b: seq<Joint>)
    ensures ServerPart(a + [z] + b) == ServerPart(a) + (if z.OnServer? then [z.x] else []) + ServerPart(b)
    ensures NodePart(a + [z] + b) == NodePart(a) + (if z.OnNode? then [z.y] else []) + NodePart(b)
  {
    assert [z][..0] == [];
    PartsConcat(a, [z]);
    PartsConcat(a + [z], b);
  }

  lemma {:induction false} StoreRuns(fqdn: string, a: seq<Responder.Action>, b: seq<Responder.Action>)
    ensures Responder.RunOn(Responder.Run(fqdn, a), b) == Responder.Run(fqdn, a + b)
    decreases b
  {
    hide Responder.Apply;
    if |b| == 0 {
      assert a + b == a;
    } else {
      var more := a + [b[0]];
      assert more[..|more| - 1] == a;
      StoreRuns(fqdn, more, b[1..]);
      assert more + b[1..] == a + b;
    }
  }

  /** An honest exchange in one interleaving: what happens after the challenge, after the signature, while the proof is
      stored, while the fetch is on its way, and after the GET. */
  datatype Journey = Journey(
    gen: nat, n: nat, reading: int, put: Responder.Action, get: Responder.Action,
    asked: seq<Joint>, signed: seq<Joint>, stored: seq<Joint>, fetching: seq<Joint>, fetched: seq<Joint>)

  function UntilAnswered(zs: seq<Joint>, fqdn: string, j: Journey, e: Exchange): seq<Joint>
  {
    zs + [OnServer(Begin(j.gen, RequestOf(fqdn, j.n)))] + j.asked +
    [OnServer(Respond(j.n, ChallengeDoc(e.c, Marshalled), j.reading))] + j.signed
  }

  function UntilStored(zs: seq<Joint>, fqdn: string, j: Journey, e: Exchange): seq<Joint>
  {
    UntilAnswered(zs, fqdn, j, e) + [OnNode(j.put)] + j.stored
  }

  function UntilServed(zs: seq<Joint>, fqdn: string, j: Journey, e: Exchange): seq<Joint>
  {
    UntilStored(zs, fqdn, j, e) + [OnServer(StartVerify(e.i, ReadyDoc(Ready(1, e.c.id), Marshalled)))] + j.fetching
  }

  function UntilGot(zs: seq<Joint>, fqdn: string, j: Journey, e: Exchange): seq<Joint>
  {
    UntilServed(zs, fqdn, j, e) + [OnNode(j.get)] + j.fetched
  }

  /** What the GET returns. */
  function Fetched(zs: seq<Joint>, fqdn: string, j: Journey, e: Exchange): Option<Document>
  {
    var proofs := Responder.Apply(RunAll(fqdn, UntilServed(zs, fqdn, j, e)).store, j.get).proofs;
    if e.c.id in proofs then Some(proofs[e.c.id].body) else None
  }

  /** The server's view of the journey. */
  function CourseOf(fqdn: string, j: Journey): Course
  {
    Course(j.gen, j.n, fqdn, ServerPart(j.asked), j.reading,
           ServerPart(j.signed) + ServerPart(j.stored), ServerPart(j.fetching) + ServerPart(j.fetched))
  }

  lemma ServerView(zs: seq<Joint>, fqdn: string, j: Journey, e: Exchange)
    ensures var xs, w := ServerPart(zs), CourseOf(fqdn, j);
      && ServerPart(UntilStored(zs, fqdn, j, e)) == UntilTold(xs, w, e)
      && ServerPart(UntilGot(zs, fqdn, j, e)) == UntilFetched(xs, w, e)
  {
    hide ServerPart, NodePart;
    var begin, respond := OnServer(Begin(j.gen, RequestOf(fqdn, j.n))),
      OnServer(Respond(j.n, ChallengeDoc(e.c, Marshalled), j.reading));
    PartsStep(zs, begin, j.asked);
    PartsStep(zs + [begin] + j.asked, respond, j.signed);
    PartsStep(UntilAnswered(zs, fqdn, j, e), OnNode(j.put), j.stored);
    PartsStep(UntilStored(zs, fqdn, j, e), OnServer(StartVerify(e.i, ReadyDoc(Ready(1, e.c.id), Marshalled))),
      j.fetching);
    PartsStep(UntilServed(zs, fqdn, j, e), OnNode(j.get), j.fetched);
  }

  /** The store's view of the journey. */
  function DeliveryOf(zs: seq<Joint>, fqdn: string, j: Journey, e: Exchange): Delivery
    requires j.get.Get?
  {
    Delivery(RunAll(fqdn, UntilAnswered(zs, fqdn, j, e)).store, j.put, NodePart(j.stored) + NodePart(j.fetching),
             j.get.readings, j.get.now)
  }

  lemma NodeView(zs: seq<Joint>, fqdn: string, j: Journey, e: Exchange)
    requires j.get.Get?
    ensures var s := RunAll(fqdn, UntilServed(zs, fqdn, j, e)).store;
      Served(DeliveryOf(zs, fqdn, j, e)) == Responder.Apply(s, j.get)
    ensures var store := DeliveryOf(zs, fqdn, j, e).store; Responder.Inv(store) && store.fqdn == fqdn
  {
    hide ServerPart, NodePart, Run, RunAll, Responder.Run, Responder.Inv, Responder.Expire;
    var answered, served := UntilAnswered(zs, fqdn, j, e), UntilServed(zs, fqdn, j, e);
    PartsRun(fqdn, answered);
    PartsRun(fqdn, served);
    PartsStep(answered, OnNode(j.put), j.stored);
    PartsStep(UntilStored(zs, fqdn, j, e), OnServer(StartVerify(e.i, ReadyDoc(Ready(1, e.c.id), Marshalled))),
      j.fetching);
    var a, between := NodePart(answered), NodePart(j.stored) + NodePart(j.fetching);
    assert NodePart(served) == a + ([j.put] + between);
    StoreRuns(fqdn, a, [j.put] + between);
    assert ([j.put] + between)[1..] == between;
    Responder.StoreInvariant(fqdn, a);
  }

  lemma FetchedIsSigned(zs: seq<Joint>, fqdn: string, j: Journey, e: Exchange)
    requires var s := RunAll(fqdn, zs).server; CanBegin(s, j.gen, j.n, fqdn) && e == ExchangeAt(s, j.gen, j.n, fqdn)
    requires j.get.Get? && InTime(DeliveryOf(zs, fqdn, j, e), j.n, e.c, RunAll(fqdn, zs).server.clock)
    ensures Fetched(zs, fqdn, j, e) == Some(SignProof(Honest(j.n), ChallengeDoc(e.c, Marshalled)))
  {
    hide RunAll, CanBegin, UntilServed, InTime, Served, DeliveryOf, Responder.Apply, Responder.Inv;
    NodeView(zs, fqdn, j, e);
    ServedIsSigned(RunAll(fqdn, zs).server, j.gen, j.n, fqdn, DeliveryOf(zs, fqdn, j, e));
  }

  lemma FinishOnServer(fqdn: string, zs: seq<Joint>, x: Action)
    ensures RunAll(fqdn, zs + [OnServer(x)]).server == Run(ServerPart(zs) + [x])
  {
    hide Run, RunAll, ServerPart, NodePart, Responder.Run;
    PartsRun(fqdn, zs + [OnServer(x)]);
    PartsStep(zs, OnServer(x), []);
    NoParts();
    assert zs + [OnServer(x)] + [] == zs + [OnServer(x)];
    assert ServerPart(zs) + [x] + [] == ServerPart(zs) + [x];
  }

  lemma ServerRuns(fqdn: string, zs: seq<Joint>)
    ensures RunAll(fqdn, zs).server == Run(ServerPart(zs))
  {
    PartsRun(fqdn, zs);
  }

  /** End to end, in one interleaving of the server, the agents and the node's responder. The agent signs and puts its
      proof after that; the responder keeps it among other requests; the GET falls between the two halves of the
      verification and the server finishes with exactly what it returned. Whatever else happens in between, the
      exchange ends in approval. */
  lemma HonestEndToEnd(zs: seq<Joint>, fqdn: string, j: Journey, e: Exchange, late: nat)
    requires var s := RunAll(fqdn, zs).server;
      CanBegin(s, j.gen, j.n, fqdn) && e == ExchangeAt(s, j.gen, j.n, fqdn) && Undisturbed(CourseOf(fqdn, j), e)
    requires Unix(RunAll(fqdn, zs).server.clock) * SECOND <= j.reading < e.c.expiresAt * SECOND
    requires j.get.Get? && InTime(DeliveryOf(zs, fqdn, j, e), j.n, e.c, RunAll(fqdn, zs).server.clock)
    requires var told, s := RunAll(fqdn, UntilStored(zs, fqdn, j, e)).server,
      RunAll(fqdn, UntilGot(zs, fqdn, j, e)).server;
      && told.clock <= s.clock - late < e.c.expiresAt * SECOND
      && j.gen < |s.gens| && Admits(Recent(s.gens[j.gen], e.node.name), s.clock)
    ensures Fetched(zs, fqdn, j, e).Some?
    ensures var s := RunAll(fqdn, UntilGot(zs, fqdn, j, e)).server;
      var x := OnServer(FinishVerify(e.i, Fetched(zs, fqdn, j, e).value, false, late));
      RunAll(fqdn, UntilGot(zs, fqdn, j, e) + [x]).server.approvals ==
      s.approvals + [Approval(e.i, j.gen, e.node.name, AgentId(e.c.trustDomain, e.node.name),
                              ["fqdn:" + e.node.fqdn], s.clock - late, s.clock)]
  {
    hide Run, RunAll, ServerPart, CourseOf, CanBegin, Undisturbed, UntilTold, UntilFetched, UntilStored, UntilGot,
      Admits, InTime, DeliveryOf, Fetched, SignProof, ExchangeAt;
    var got, w := UntilGot(zs, fqdn, j, e), CourseOf(fqdn, j);
    ServerRuns(fqdn, zs);
    ServerRuns(fqdn, UntilStored(zs, fqdn, j, e));
    ServerRuns(fqdn, got);
    ServerView(zs, fqdn, j, e);
    FetchedIsSigned(zs, fqdn, j, e);
    CourseIs(fqdn, j);
    HonestRunApproved(ServerPart(zs), w, e, late);
    FinishOnServer(fqdn, got, FinishVerify(e.i, Fetched(zs, fqdn, j, e).value, false, late));
  }

  lemma CourseIs(fqdn: string, j: Journey)
    ensures var w := CourseOf(fqdn, j); w.gen == j.gen && w.n == j.n && w.fqdn == fqdn && w.reading == j.reading
  {
  }

  lemma NoParts()
    ensures ServerPart([]) == [] && NodePart([]) == []
  {
  }
}
