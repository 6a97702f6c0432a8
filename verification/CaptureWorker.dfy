/** What the worker's lookups find for the connections it has accepted, and what can make them go wrong. */
module CaptureWorker {
  import opened Text
  import opened Capture

  // ---------------------------------------------------------------- accepted connections

  /** While the accepted connection lasts, its client keeps the tuple and the record, and the worker looks under the
      key that the hook used. */
  ghost predicate AcceptedOk(a: Accepted, k: Socket, port: nat)
  {
    && a.serial <= k.serial && a.key == HookKey(a.tuple) && AtWorker(a.tuple, port)
    && (a.serial == k.serial && k.live.Some? ==> k.live == Some(a.tuple) && a.record == RecordOf(k))
  }

  ghost predicate AllAccepted(s: State)
  {
    forall conn :: conn in s.accepted ==> AcceptedOk(s.accepted[conn], Sock(s, s.accepted[conn].cookie), s.port)
  }

  /** What one step does to one socket: its connection number grows with each new connection, and while one lasts the
      tuple and the record stay. */
  lemma SocketMoves(s: State, x: Action, c: nat)
    requires Enabled(s, x)
    ensures var k, k' := Sock(s, c), Sock(Apply(s, x), c);
      && k.serial <= k'.serial
      && (k'.serial == k.serial && k'.live.Some? ==> k.live == k'.live && RecordOf(k) == RecordOf(k'))
  {
    hide PassesThrough, HookKey, WorkerKey, TupleFree, Sources;
  }

  lemma AcceptsOne(s: State, x: Action, conn: nat)
    requires SocketsOk(s) && Enabled(s, x) && conn in Apply(s, x).accepted
    ensures var t := Apply(s, x);
      var a := t.accepted[conn];
      (conn in s.accepted && a == s.accepted[conn]) || AcceptedOk(a, Sock(t, a.cookie), t.port)
  {
    hide ConnectStep, EstablishedStep, ClosedStep, TupleFree, WorkerKey, HookKey;
    if x.Accept? && conn == x.conn {
      var k := Sock(s, x.cookie);
      assert SocketOk(k, x.cookie, s.port);
      KeysAgree(k.live.value);
    }
    OthersAcceptNothing(s, x);
  }

  lemma OthersAcceptNothing(s: State, x: Action)
    ensures !x.Accept? ==> Apply(s, x).accepted == s.accepted
    ensures Apply(s, x).port == s.port
  {
  }

  lemma {:induction false} AcceptedHolds(port: nat, xs: seq<Action>)
    ensures AllAccepted(Run(port, xs))
  {
    hide Apply, Enabled, SocketsOk, HookKey, WorkerKey, AtWorker;
    if |xs| > 0 {
      var s, x := Run(port, xs[..|xs| - 1]), xs[|xs| - 1];
      AcceptedHolds(port, xs[..|xs| - 1]);
      SocketsHold(port, xs[..|xs| - 1]);
      if Enabled(s, x) {
        var t := Apply(s, x);
        OthersAcceptNothing(s, x);
        forall conn | conn in t.accepted
          ensures AcceptedOk(t.accepted[conn], Sock(t, t.accepted[conn].cookie), t.port)
        {
          AcceptsOne(s, x, conn);
          SocketMoves(s, x, t.accepted[conn].cookie);
        }
      }
    }
  }

  /** What was accepted stays so. */
  lemma {:induction false} AcceptedStays(port: nat, xs: seq<Action>, k: nat, conn: nat)
    requires k <= |xs| && conn in Run(port, xs[..k]).accepted
    ensures conn in Run(port, xs).accepted && Run(port, xs).accepted[conn] == Run(port, xs[..k]).accepted[conn]
  {
    hide ConnectStep, EstablishedStep, ClosedStep;
    if k == |xs| {
      assert xs[..k] == xs;
    } else {
      var n := |xs| - 1;
      assert xs[..n][..k] == xs[..k];
      AcceptedStays(port, xs[..n], k, conn);
      OthersAcceptNothing(Run(port, xs[..n]), xs[n]);
    }
  }

  // ---------------------------------------------------------------- lookups

  predicate Lasts(a: Accepted, k: Socket) { k.live.Some? && k.serial == a.serial }

  /** A lookup for an accepted connection. What it finds belongs to its client only if that client is live under the
      key. While the client reaches the worker under the key, it finds the client's record, and while the connection
      itself lasts the record that was accepted, exactly when the entry's writer did not connect straight to another
      loopback address on the proxy port. */
  lemma LookupIsOwnClient(port: nat, xs: seq<Action>, conn: nat)
    requires conn in Run(port, xs).accepted && Run(port, xs).accepted[conn].key in Run(port, xs).connections
    ensures var s := Run(port, xs);
      var a := s.accepted[conn];
      var d, k := s.connections[a.key], Sock(s, a.cookie);
      && d.cookie in s.sockets && s.sockets[d.cookie].asked.Some?
      && (d.cookie == a.cookie ==> k.live.Some? && HookKey(k.live.value) == a.key)
      && (ReachesWorker(k, port) && HookKey(k.live.value) == a.key ==>
            (d.cookie == a.cookie <==> !BesideWorker(s.sockets[d.cookie].asked.value, port)))
      && (Lasts(a, k) ==> (a.record == Some(d) <==> !BesideWorker(s.sockets[d.cookie].asked.value, port)))
  {
    hide Run, BesideWorker, HookKey, WorkerKey;
    AcceptedHolds(port, xs);
    SocketsHold(port, xs);
    var s := Run(port, xs);
    var a := s.accepted[conn];
    var k := Sock(s, a.cookie);
    EntryIsWriters(port, xs, a.key);
    WriterAsked(s, s.connections[a.key].cookie);
    assert AcceptedOk(a, k, port);
    if ReachesWorker(k, port) && HookKey(k.live.value) == a.key {
      NoMisroutedTcp(port, xs, a.cookie);
      OwnRecord(s, a.cookie, s.connections[a.key]);
    }
  }

  lemma WriterAsked(s: State, c: nat)
    requires SocketsOk(s) && c in s.sockets && s.sockets[c].live.Some?
    ensures s.sockets[c].asked.Some?
  {
    assert SocketOk(s.sockets[c], c, s.port);
  }

  lemma OwnRecord(s: State, c: nat, d: Destination)
    requires SocketsOk(s)
    ensures RecordOf(Sock(s, c)) == Some(d) ==> d.cookie == c
  {
    RecordIsOwn(s, c);
  }

  const LOOKUPS: nat := 20

  /** One lookup: the map as it is at that moment, or an error other than a missing key. */
  datatype Moment = Readable(connections: map<Key, Destination>) | Failing

  datatype Answer = Found(destination: Destination) | Missing | LookupFailed

  predicate Misses(key: Key, m: Moment) { m.Readable? && key !in m.connections }

  /** The first lookup that does not miss. */
  ghost predicate FirstAnswer(key: Key, moments: seq<Moment>, i: nat)
  {
    i < |moments| && !Misses(key, moments[i]) && forall j :: 0 <= j < i ==> Misses(key, moments[j])
  }

  /** originalDestination: up to twenty lookups, each against the map as it is at that moment. */
  method OriginalDestination(key: Key, moments: seq<Moment>) returns (r: Answer)
    requires |moments| == 20
    ensures r.Missing? <==> forall i :: 0 <= i < 20 ==> Misses(key, moments[i])
    ensures !r.Missing? ==>
      exists i: nat :: FirstAnswer(key, moments, i) &&
        r == if moments[i].Failing? then LookupFailed else Found(moments[i].connections[key])
  {
    for i := 0 to LOOKUPS
      invariant forall j :: 0 <= j < i ==> Misses(key, moments[j])
    {
      if !Misses(key, moments[i]) {
        assert FirstAnswer(key, moments, i);
        if moments[i].Readable? {
          return Found(moments[i].connections[key]);
        }
        return LookupFailed;
      }
    }
    r := Missing;
  }

  ghost predicate ReadAt(port: nat, xs: seq<Action>, when: nat, m: Moment)
  {
    when <= |xs| && (m.Readable? ==> m.connections == Run(port, xs[..when]).connections)
  }

  /** The maps a worker reads at some moments of a run. */
  ghost predicate ReadDuring(port: nat, xs: seq<Action>, when: seq<nat>, moments: seq<Moment>)
  {
    |when| == |moments| && forall i :: 0 <= i < |when| ==> ReadAt(port, xs, when[i], moments[i])
  }

  /** Twenty lookups for an accepted connection, at any moments of any run after the accept: a destination they return
      while the connection lasts is the one it was accepted with, exactly under the same condition. */
  lemma AnswerIsOwnClient(
    port: nat, xs: seq<Action>, conn: nat, when: seq<nat>, moments: seq<Moment>, i: nat)
    requires ReadDuring(port, xs, when, moments) && i < |when| && conn in Run(port, xs[..when[i]]).accepted
    requires conn in Run(port, xs).accepted && moments[i].Readable?
    requires FirstAnswer(Run(port, xs).accepted[conn].key, moments, i)
    ensures var a, s := Run(port, xs).accepted[conn], Run(port, xs[..when[i]]);
      var d, k := moments[i].connections[a.key], Sock(s, a.cookie);
      && d.cookie in s.sockets && s.sockets[d.cookie].asked.Some?
      && (d.cookie == a.cookie ==> k.live.Some? && HookKey(k.live.value) == a.key)
      && (ReachesWorker(k, port) && HookKey(k.live.value) == a.key ==>
            (d.cookie == a.cookie <==> !BesideWorker(s.sockets[d.cookie].asked.value, port)))
      && (Lasts(a, k) ==> (a.record == Some(d) <==> !BesideWorker(s.sockets[d.cookie].asked.value, port)))
  {
    hide Run, BesideWorker, HookKey;
    AcceptedStays(port, xs, when[i], conn);
    LookupIsOwnClient(port, xs[..when[i]], conn);
  }

  // ---------------------------------------------------------------- which straight connects are harmless

  /** A redirected client is live, and a lookup under its key finds another destination than it asked for. */
  ghost predicate Misroutes(s: State)
  {
    exists c :: c in s.sockets && MisroutesOne(s, s.sockets[c])
  }

  ghost predicate MisroutesOne(s: State, k: Socket)
  {
    && k.live.Some? && k.redirected && HookKey(k.live.value) in s.connections
    && k.asked != Some(s.connections[HookKey(k.live.value)].peer)
  }

  /** A connect that goes straight to a loopback address from a socket that already carries a record. */
  predicate StaleConnect(s: State, x: Action)
  {
    x.Connect? && PassesThrough(x.target) && Sock(s, x.cookie).live.None? && Sock(s, x.cookie).storage.Some?
  }

  ghost predicate StaysWithin(port: nat, xs: seq<Action>, allowed: iset<Endpoint>)
  {
    forall k :: 0 <= k < |xs| && StaleConnect(Run(port, xs[..k]), xs[k]) ==> xs[k].target in allowed
  }

  /** No redirected client is ever misrouted, in any run whose sockets that carry a record connect straight only to
      allowed addresses. */
  ghost predicate NeverMisroutes(port: nat, allowed: iset<Endpoint>)
  {
    forall xs :: StaysWithin(port, xs, allowed) ==> !Misroutes(Run(port, xs))
  }

  /** A socket that carries a record and last connected straight went to an allowed address. */
  ghost predicate StraysAllowed(s: State, allowed: iset<Endpoint>)
  {
    forall c :: c in s.sockets ==> StrayAllowed(s.sockets[c], allowed)
  }

  predicate Strays(k: Socket) { k.storage.Some? && !k.redirected && k.asked.Some? }

  ghost predicate StrayAllowed(k: Socket, allowed: iset<Endpoint>) { Strays(k) ==> k.asked.value in allowed }

  lemma StrayStep(s: State, x: Action, allowed: iset<Endpoint>)
    requires StraysAllowed(s, allowed) && (StaleConnect(s, x) ==> x.target in allowed)
    ensures StraysAllowed(Apply(s, x), allowed)
  {
    hide PassesThrough, HookKey, WorkerKey;
  }

  lemma {:induction false} StraysStay(port: nat, xs: seq<Action>, allowed: iset<Endpoint>)
    requires StaysWithin(port, xs, allowed)
    ensures StraysAllowed(Run(port, xs), allowed)
  {
    hide Apply, Enabled;
    if |xs| > 0 {
      var n := |xs| - 1;
      var front := xs[..n];
      forall k | 0 <= k < n && StaleConnect(Run(port, front[..k]), front[k]) ensures front[k].target in allowed {
        assert front[..k] == xs[..k];
      }
      StraysStay(port, front, allowed);
      StrayStep(Run(port, front), xs[n], allowed);
    }
  }

  lemma WithinIsRight(port: nat, xs: seq<Action>, allowed: iset<Endpoint>)
    requires StaysWithin(port, xs, allowed) && forall e :: e in allowed ==> !BesideWorker(e, port)
    ensures !Misroutes(Run(port, xs))
  {
    hide Run, StaysWithin, BesideWorker, HookKey;
    StraysStay(port, xs, allowed);
    SocketsHold(port, xs);
    var s := Run(port, xs);
    forall c | c in s.sockets ensures !MisroutesOne(s, s.sockets[c]) {
      if s.sockets[c].live.Some? && s.sockets[c].redirected && HookKey(s.sockets[c].live.value) in s.connections {
        RedirectedReaches(s, c);
        NoMisroutedTcp(port, xs, c);
        var d := s.connections[HookKey(s.sockets[c].live.value)];
        WriterIsAllowed(port, xs, HookKey(s.sockets[c].live.value), allowed);
      }
    }
  }

  lemma RedirectedReaches(s: State, c: nat)
    requires SocketsOk(s) && c in s.sockets && s.sockets[c].live.Some? && s.sockets[c].redirected
    ensures ReachesWorker(s.sockets[c], s.port)
  {
    assert SocketOk(s.sockets[c], c, s.port);
  }

  /** An entry's writer carries a record, so it did not go beside the worker. */
  lemma WriterIsAllowed(port: nat, xs: seq<Action>, key: Key, allowed: iset<Endpoint>)
    requires StraysAllowed(Run(port, xs), allowed) && (forall e :: e in allowed ==> !BesideWorker(e, port))
    requires key in Run(port, xs).connections
    ensures var s := Run(port, xs);
      var w := s.connections[key].cookie;
      w in s.sockets && s.sockets[w].asked.Some? && !BesideWorker(s.sockets[w].asked.value, port)
  {
    hide Run, HookKey;
    EntriesHold(port, xs);
    SocketsHold(port, xs);
    var s := Run(port, xs);
    assert EntryOk(s, key);
    var w := s.connections[key].cookie;
    assert SocketOk(s.sockets[w], w, port) && StrayAllowed(s.sockets[w], allowed);
  }

  // ---------------------------------------------------------------- runs in which lookups go wrong

  /** A step that can happen. */
  lemma Next(port: nat, xs: seq<Action>, k: nat, s: State, t: State)
    requires k < |xs| && Run(port, xs[..k]) == s && Enabled(s, xs[k]) && Apply(s, xs[k]) == t
    ensures Run(port, xs[..k + 1]) == t
  {
    hide Apply, Enabled;
    Unfold(port, xs, k + 1);
  }

  const SOURCE: Endpoint := V4(0x7f00_0001, 40000)

  /** A socket that was redirected to peer and is not connected, after serial connections under one source. */
  function Carrier(cookie: nat, peer: Endpoint, port: nat, serial: nat): Socket
  {
    var key := if serial == 0 then None else Some(Key(0, SOURCE, port));
    Socket(Some(Tracking(Destination(cookie, peer), key, serial > 0)), None, Some(peer), true, serial)
  }

  function AtProxy(port: nat): Tuple { Tuple(0, SOURCE, V4(0x7f00_0001, port)) }

  /** Socket 1 is redirected, established and closed again. */
  lemma RedirectAndClose(port: nat, xs: seq<Action>, first: Endpoint)
    requires |xs| >= 3 && first.V4? && !PassesThrough(first)
    requires xs[..3] == [Connect(1, first, true), Established(1, 0, SOURCE, true), Closed(1)]
    ensures Run(port, xs[..2]) ==
      State(port, map[1 := Carrier(1, first, port, 1).(live := Some(AtProxy(port)))],
            map[Key(0, SOURCE, port) := Destination(1, first)], map[])
    ensures Run(port, xs[..3]) == State(port, map[1 := Carrier(1, first, port, 1)], map[], map[])
  {
    hide Run, PassesThrough;
    assert xs[0] == xs[..3][0] && xs[1] == xs[..3][1] && xs[2] == xs[..3][2];
    RunNothing(port, xs);
    var s0 := State(port, map[], map[], map[]);
    var s1 := State(port, map[1 := Carrier(1, first, port, 0)], map[], map[]);
    Next(port, xs, 0, s0, s1);
    var s2 := State(port, map[1 := Carrier(1, first, port, 1).(live := Some(AtProxy(port)))],
                    map[Key(0, SOURCE, port) := Destination(1, first)], map[]);
    Next(port, xs, 1, s1, s2);
    Next(port, xs, 2, s2, State(port, map[1 := Carrier(1, first, port, 1)], map[], map[]));
  }

  /** A reconnect straight to the proxy port is answered with the older destination. */
  lemma StaleReconnect(port: nat, first: Endpoint)
    requires first.V4? && !PassesThrough(first) && port != 53
    ensures var here := V4(0x7f00_0001, port);
      var xs := [Connect(1, first, true), Established(1, 0, SOURCE, true), Closed(1), Connect(1, here, true),
                 Established(1, 0, SOURCE, true)];
      var s := Run(port, xs);
      && Sock(s, 1).live == Some(AtProxy(port)) && Sock(s, 1).asked == Some(here) && first != here
      && HookKey(AtProxy(port)) in s.connections && s.connections[HookKey(AtProxy(port))].peer == first
  {
    hide Run;
    var here := V4(0x7f00_0001, port);
    var xs := [Connect(1, first, true), Established(1, 0, SOURCE, true), Closed(1), Connect(1, here, true),
               Established(1, 0, SOURCE, true)];
    RedirectAndClose(port, xs, first);
    var s3 := State(port, map[1 := Carrier(1, first, port, 1)], map[], map[]);
    var k := Carrier(1, first, port, 1).(asked := Some(here), redirected := false);
    var s4 := State(port, map[1 := k], map[], map[]);
    Next(port, xs, 3, s3, s4);
    var s5 := State(port, map[1 := k.(live := Some(AtProxy(port)), serial := 2)],
                    map[Key(0, SOURCE, port) := Destination(1, first)], map[]);
    Next(port, xs, 4, s4, s5);
    assert xs[..5] == xs;
  }

  /** After close and reuse the lookup can find the next owner's destination. */
  lemma ReusedTuple(port: nat, first: Endpoint, second: Endpoint)
    requires first.V4? && second.V4? && !PassesThrough(first) && !PassesThrough(second)
    ensures var xs := [Connect(1, first, true), Established(1, 0, SOURCE, true), Accept(5, 1), Closed(1),
                       Connect(2, second, true), Established(2, 0, SOURCE, true)];
      var s := Run(port, xs);
      && 5 in s.accepted && s.accepted[5].record == Some(Destination(1, first))
      && s.accepted[5].key in s.connections && s.connections[s.accepted[5].key] == Destination(2, second)
  {
    hide Run, PassesThrough;
    var xs := [Connect(1, first, true), Established(1, 0, SOURCE, true), Accept(5, 1), Closed(1),
               Connect(2, second, true), Established(2, 0, SOURCE, true)];
    var key, one := Key(0, SOURCE, port), Carrier(1, first, port, 1);
    var ys := [Connect(1, first, true), Established(1, 0, SOURCE, true), Closed(1)];
    RedirectAndClose(port, ys, first);
    assert ys[..3] == ys && ys[..2] == xs[..2];
    var live := one.(live := Some(AtProxy(port)));
    var s2 := State(port, map[1 := live], map[key := Destination(1, first)], map[]);
    var got := map[5 := Accepted(AtProxy(port), key, 1, 1, Some(Destination(1, first)))];
    var s3 := s2.(accepted := got);
    Next(port, xs, 2, s2, s3);
    var s4 := State(port, map[1 := one], map[], got);
    Next(port, xs, 3, s3, s4);
    var s5 := State(port, map[1 := one, 2 := Carrier(2, second, port, 0)], map[], got);
    Next(port, xs, 4, s4, s5);
    var two := Carrier(2, second, port, 1).(live := Some(AtProxy(port)));
    Next(port, xs, 5, s5, State(port, map[1 := one, 2 := two], map[key := Destination(2, second)], got));
    assert xs[..6] == xs;
  }

  function SharedKeyRun(first: Endpoint, second: Endpoint, beside: Endpoint): seq<Action>
  {
    [Connect(1, first, true), Established(1, 0, SOURCE, true), Closed(1), Connect(1, beside, true),
     Connect(2, second, true), Established(2, 0, SOURCE, true), Accept(5, 2), Established(1, 0, SOURCE, true)]
  }

  lemma BesideIsV4(e: Endpoint, port: nat)
    requires BesideWorker(e, port)
    ensures e.V4? && e.port == port && e != V4(0x7f00_0001, port) && PassesThrough(e) && port != 53
  {
  }

  lemma {:induction false} SharedKeyStates(port: nat, first: Endpoint, second: Endpoint, beside: Endpoint)
    requires first.V4? && second.V4? && !PassesThrough(first) && !PassesThrough(second) && BesideWorker(beside, port)
    ensures var xs := SharedKeyRun(first, second, beside);
      var one := Carrier(1, first, port, 1).(asked := Some(beside), redirected := false);
      && Run(port, xs[..3]) == State(port, map[1 := Carrier(1, first, port, 1)], map[], map[])
      && Run(port, xs[..4]) == State(port, map[1 := one], map[], map[])
      && Run(port, xs[..5]) == State(port, map[1 := one, 2 := Carrier(2, second, port, 0)], map[], map[])
      && Run(port, xs[..6]) ==
         State(port, map[1 := one, 2 := Carrier(2, second, port, 1).(live := Some(AtProxy(port)))],
               map[Key(0, SOURCE, port) := Destination(2, second)], map[])
  {
    hide Run, PassesThrough, BesideWorker;
    BesideIsV4(beside, port);
    var xs := SharedKeyRun(first, second, beside);
    RedirectAndClose(port, xs, first);
    var one := Carrier(1, first, port, 1).(asked := Some(beside), redirected := false);
    var s3 := State(port, map[1 := Carrier(1, first, port, 1)], map[], map[]);
    var s4 := State(port, map[1 := one], map[], map[]);
    Next(port, xs, 3, s3, s4);
    var s5 := State(port, map[1 := one, 2 := Carrier(2, second, port, 0)], map[], map[]);
    Next(port, xs, 4, s4, s5);
    var two := Carrier(2, second, port, 1).(live := Some(AtProxy(port)));
    Next(port, xs, 5, s5,
      State(port, map[1 := one, 2 := two], map[Key(0, SOURCE, port) := Destination(2, second)], map[]));
  }

  /** A socket that carries a record connects straight to another loopback address on the proxy port, under the source
      address of a redirected client: the client's accepted connection is then answered with the wrong destination. */
  lemma SharedKeyMisroutes(port: nat, first: Endpoint, second: Endpoint, beside: Endpoint)
    requires first.V4? && second.V4? && !PassesThrough(first) && !PassesThrough(second) && first != second
    requires BesideWorker(beside, port)
    ensures var s := Run(port, SharedKeyRun(first, second, beside));
      && Misroutes(s) && 5 in s.accepted && s.accepted[5].cookie == 2 && Lasts(s.accepted[5], Sock(s, 2))
      && Sock(s, 2).redirected && Sock(s, 2).asked == Some(second)
      && s.accepted[5].key in s.connections && s.connections[s.accepted[5].key] == Destination(1, first)
  {
    hide Run, PassesThrough, BesideWorker;
    BesideIsV4(beside, port);
    SharedKeyStates(port, first, second, beside);
    var xs, key := SharedKeyRun(first, second, beside), Key(0, SOURCE, port);
    var one := Carrier(1, first, port, 1).(asked := Some(beside), redirected := false);
    var two := Carrier(2, second, port, 1).(live := Some(AtProxy(port)));
    var s6 := State(port, map[1 := one, 2 := two], map[key := Destination(2, second)], map[]);
    var got := map[5 := Accepted(AtProxy(port), key, 2, 1, Some(Destination(2, second)))];
    var s7 := s6.(accepted := got);
    Next(port, xs, 6, s6, s7);
    var one' := one.(live := Some(Tuple(0, SOURCE, beside)), serial := 2);
    var s8 := State(port, map[1 := one', 2 := two], map[key := Destination(1, first)], got);
    Next(port, xs, 7, s7, s8);
    assert xs[..8] == xs;
    assert MisroutesOne(s8, s8.sockets[2]);
  }

  lemma SharedKeyWithin(port: nat, first: Endpoint, second: Endpoint, beside: Endpoint)
    requires first.V4? && second.V4? && !PassesThrough(first) && !PassesThrough(second) && BesideWorker(beside, port)
    ensures StaysWithin(port, SharedKeyRun(first, second, beside), iset{beside})
  {
    var xs := SharedKeyRun(first, second, beside);
    forall k | 0 <= k < |xs| && StaleConnect(Run(port, xs[..k]), xs[k]) ensures xs[k].target == beside {
      assert k == 0 || k == 3 || k == 4;
    }
  }

  /** Lookups never misroute a redirected client exactly when no socket that carries a record connects straight to
      another loopback address on the proxy port. */
  lemma NeverMisroutesExactly(port: nat, allowed: iset<Endpoint>)
    ensures NeverMisroutes(port, allowed) <==> forall e :: e in allowed ==> !BesideWorker(e, port)
  {
    hide Run, BesideWorker, StaysWithin, Misroutes;
    if forall e :: e in allowed ==> !BesideWorker(e, port) {
      forall xs | StaysWithin(port, xs, allowed) ensures !Misroutes(Run(port, xs)) {
        WithinIsRight(port, xs, allowed);
      }
    } else {
      var e :| e in allowed && BesideWorker(e, port);
      var first, second := V4(0x0a00_0001, 80), V4(0x0a00_0002, 80);
      SharedKeyWithin(port, first, second, e);
      WithinMore(port, SharedKeyRun(first, second, e), iset{e}, allowed);
      SharedKeyMisroutes(port, first, second, e);
    }
  }

  lemma WithinMore(port: nat, xs: seq<Action>, few: iset<Endpoint>, many: iset<Endpoint>)
    requires StaysWithin(port, xs, few) && few <= many
    ensures StaysWithin(port, xs, many)
  {
  }
}
