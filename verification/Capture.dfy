/** Transparent TCP capture: the connect and sockops hooks, the reverse map, and the worker that accepts.
    Each hook is one step. The kernel may evict any map entry at any time, and lets a connection tuple be
    reused once the close callback of its last socket has run. The map's key leaves out the remote address,
    so two live connections can share it. */
module Capture {
  import opened Text

  // ---------------------------------------------------------------- addresses

  /** An address and port as the socket layer sees it; words are in host order. */
  datatype Endpoint = V4(ip: nat, port: nat) | V6(w0: nat, w1: nat, w2: nat, w3: nat, port: nat)

  predicate Loopback(e: Endpoint)
  {
    match e
    case V4(ip, _) => ip / 0x100_0000 == 127
    case V6(a, b, c, d, _) => a == 0 && b == 0 && c == 0 && d == 1
  }

  /** to_local: the loopback address of the same family, on which the worker listens. */
  function ToLocal(e: Endpoint, port: nat): Endpoint
  {
    if e.V4? then V4(0x7f00_0001, port) else V6(0, 0, 0, 1, port)
  }

  predicate PassesThrough(target: Endpoint) { target.port != 53 && Loopback(target) }

  /** A loopback address on the proxy port that is not the worker's own. */
  predicate BesideWorker(e: Endpoint, port: nat) { PassesThrough(e) && e.port == port && e != ToLocal(e, port) }

  /** What sk storage and the reverse map hold for a redirected connect. */
  datatype Destination = Destination(cookie: nat, peer: Endpoint)

  datatype Key = Key(netns: nat, source: Endpoint, proxyPort: nat)

  /** What the kernel tells connections apart by. */
  datatype Tuple = Tuple(netns: nat, source: Endpoint, remote: Endpoint)

  /** The key that the established callback builds. */
  function HookKey(t: Tuple): Key { Key(t.netns, t.source, t.remote.port) }

  /** An IPv4-mapped IPv6 address. */
  predicate Mapped(e: Endpoint) { e.V6? && e.w0 == 0 && e.w1 == 0 && e.w2 == 0xffff }

  /** The key that connectionIdentity builds: To4 folds mapped addresses to IPv4. */
  function WorkerKey(t: Tuple): Key
  {
    Key(t.netns, if Mapped(t.source) then V4(t.source.w3, t.source.port) else t.source, t.remote.port)
  }

  /** The two sides compute the same key exactly for sources that are not mapped. */
  lemma KeysAgree(t: Tuple)
    ensures WorkerKey(t) == HookKey(t) <==> !Mapped(t.source)
  {
  }

  // ---------------------------------------------------------------- state

  /** tcp_storage of one socket. */
  datatype Tracking = Tracking(original: Destination, key: Option<Key>, tracked: bool)

  /** A client socket. live is its tuple from established until the close callback; asked is its latest
      connect and redirected whether the hook rewrote that connect; serial counts its connections so far. */
  datatype Socket = Socket(
    storage: Option<Tracking>, live: Option<Tuple>, asked: Option<Endpoint>, redirected: bool, serial: nat)

  /** A connection the worker has accepted: its tuple and the key the worker looks up, the client socket at its other
      end with the number of that socket's connection, and what that connection was redirected from. */
  datatype Accepted = Accepted(tuple: Tuple, key: Key, cookie: nat, serial: nat, record: Option<Destination>)

  datatype State = State(
    port: nat, sockets: map<nat, Socket>, connections: map<Key, Destination>, accepted: map<nat, Accepted>)

  const FRESH: Socket := Socket(None, None, None, false, 0)

  datatype Action =
    | Connect(cookie: nat, target: Endpoint, stored: bool)
    | Established(cookie: nat, netns: nat, source: Endpoint, updated: bool)
    | Closed(cookie: nat)
    | Accept(conn: nat, cookie: nat)
    | Evict(key: Key)

  function Sock(s: State, cookie: nat): Socket { if cookie in s.sockets then s.sockets[cookie] else FRESH }

  function RecordOf(k: Socket): Option<Destination>
  {
    if k.storage.Some? then Some(k.storage.value.original) else None
  }

  /** Where the socket's latest connect really went. */
  function ConnectedTo(k: Socket, port: nat): Option<Endpoint>
  {
    if k.asked.Some? && k.redirected then Some(ToLocal(k.asked.value, port)) else k.asked
  }

  /** The stream half of redirect. The kernel runs it only for a socket that is not connected. */
  function ConnectStep(s: State, cookie: nat, target: Endpoint, stored: bool): State
  {
    var k := Sock(s, cookie);
    if k.live.Some? then s
    else if PassesThrough(target) then
      s.(sockets := s.sockets[cookie := k.(asked := Some(target), redirected := false)])
    else if !stored then s
    else
      var t := Tracking(Destination(cookie, target), None, false);
      s.(sockets := s.sockets[cookie := k.(storage := Some(t), asked := Some(target), redirected := true)])
  }

  /** The active-established callback. Sockets without storage are left alone. */
  function EstablishedStep(s: State, cookie: nat, tuple: Tuple, updated: bool): State
  {
    var k, key := Sock(s, cookie).(live := Some(tuple), serial := Sock(s, cookie).serial + 1), HookKey(tuple);
    match k.storage
    case None => s.(sockets := s.sockets[cookie := k])
    case Some(t) =>
      var tracking := t.(key := Some(key), tracked := t.tracked || updated);
      s.(sockets := s.sockets[cookie := k.(storage := Some(tracking))],
         connections := if updated then s.connections[key := t.original] else s.connections)
  }

  /** The callback for the change to TCP_CLOSE. */
  function ClosedStep(s: State, cookie: nat): State
  {
    var k := Sock(s, cookie);
    var t := s.(sockets := s.sockets[cookie := k.(live := None)]);
    match k.storage
    case Some(Tracking(original, Some(key), true)) =>
      if key in s.connections && s.connections[key].cookie == original.cookie then
        t.(connections := s.connections - {key})
      else t
    case _ => t
  }

  /** The worker accepts the other end of a client's connection. */
  function AcceptStep(s: State, conn: nat, cookie: nat): State
  {
    var k := Sock(s, cookie);
    if k.live.None? then s
    else
      var a := Accepted(k.live.value, WorkerKey(k.live.value), cookie, k.serial, RecordOf(k));
      s.(accepted := s.accepted[conn := a])
  }

  /** The kernel gives a tuple to one connection at a time. */
  ghost predicate TupleFree(s: State, t: Tuple)
  {
    forall c :: c in s.sockets ==> s.sockets[c].live != Some(t)
  }

  /** A source address that the kernel can give a connection to this remote address. */
  predicate Sources(source: Endpoint, remote: Endpoint) { (source.V6? <==> remote.V6?) && !Mapped(source) }

  predicate AtWorker(t: Tuple, port: nat) { t.remote == ToLocal(t.remote, port) }

  /** A step the kernel can take; anything else leaves the state alone. */
  ghost predicate Enabled(s: State, x: Action)
  {
    match x
    case Established(cookie, netns, source, _) =>
      var k := Sock(s, cookie);
      && k.live.None? && ConnectedTo(k, s.port).Some?
      && var remote := ConnectedTo(k, s.port).value;
         Sources(source, remote) && TupleFree(s, Tuple(netns, source, remote))
    case Closed(cookie) => Sock(s, cookie).live.Some?
    case Accept(conn, cookie) =>
      var k := Sock(s, cookie);
      conn !in s.accepted && k.live.Some? && AtWorker(k.live.value, s.port)
    case _ => true
  }

  function Apply(s: State, x: Action): State
  {
    match x
    case Connect(cookie, target, stored) => ConnectStep(s, cookie, target, stored)
    case Established(cookie, netns, source, updated) =>
      var remote := ConnectedTo(Sock(s, cookie), s.port);
      if remote.None? then s else EstablishedStep(s, cookie, Tuple(netns, source, remote.value), updated)
    case Closed(cookie) => ClosedStep(s, cookie)
    case Accept(conn, cookie) => AcceptStep(s, conn, cookie)
    case Evict(key) => s.(connections := s.connections - {key})
  }

  ghost function Run(port: nat, xs: seq<Action>): State
  {
    if |xs| == 0 then State(port, map[], map[], map[])
    else
      var s, x := Run(port, xs[..|xs| - 1]), xs[|xs| - 1];
      if Enabled(s, x) then Apply(s, x) else s
  }

  lemma RunNothing(port: nat, xs: seq<Action>)
    ensures Run(port, xs[..0]) == State(port, map[], map[], map[])
  {
  }

  lemma Unfold(port: nat, xs: seq<Action>, k: nat)
    requires 0 < k <= |xs|
    ensures var s := Run(port, xs[..k - 1]);
      Run(port, xs[..k]) == if Enabled(s, xs[k - 1]) then Apply(s, xs[k - 1]) else s
  {
    assert xs[..k][..k - 1] == xs[..k - 1];
  }

  // ---------------------------------------------------------------- sockets

  /** Storage remembers the latest redirected connect of its own socket, and a live connection goes where the latest
      connect went. */
  ghost predicate SocketOk(k: Socket, cookie: nat, port: nat)
  {
    && (k.storage.Some? ==>
          k.storage.value.original.cookie == cookie && !PassesThrough(k.storage.value.original.peer))
    && (k.redirected ==> k.storage.Some? && k.asked == Some(k.storage.value.original.peer))
    && (!k.redirected && k.asked.Some? ==> PassesThrough(k.asked.value))
    && (k.live.Some? ==>
          && Some(k.live.value.remote) == ConnectedTo(k, port)
          && Sources(k.live.value.source, k.live.value.remote))
  }

  predicate Alike(k: Socket, m: Socket) { k.live.Some? && k.live == m.live }

  ghost predicate SocketsOk(s: State)
  {
    && (forall c :: c in s.sockets ==> SocketOk(s.sockets[c], c, s.port))
    && forall c, e :: c in s.sockets && e in s.sockets && Alike(s.sockets[c], s.sockets[e]) ==> c == e
  }

  lemma SocketsKept(s: State, x: Action)
    requires SocketsOk(s) && Enabled(s, x)
    ensures SocketsOk(Apply(s, x)) && Apply(s, x).port == s.port
  {
    hide PassesThrough, Mapped, HookKey, WorkerKey;
  }

  lemma {:induction false} SocketsHold(port: nat, xs: seq<Action>)
    ensures SocketsOk(Run(port, xs)) && Run(port, xs).port == port
  {
    hide Apply, Enabled, SocketsOk;
    if |xs| == 0 {
      NoSockets(port);
    } else {
      SocketsHold(port, xs[..|xs| - 1]);
      if Enabled(Run(port, xs[..|xs| - 1]), xs[|xs| - 1]) {
        SocketsKept(Run(port, xs[..|xs| - 1]), xs[|xs| - 1]);
      }
    }
  }

  lemma NoSockets(port: nat)
    ensures SocketsOk(State(port, map[], map[], map[]))
  {
  }

  // ---------------------------------------------------------------- map entries

  /** Every map entry was written by a live socket under that key, and is that socket's own record. */
  ghost predicate EntryOk(s: State, key: Key)
    requires key in s.connections
  {
    var d := s.connections[key];
    && d.cookie in s.sockets
    && var k := s.sockets[d.cookie];
       && k.live.Some? && HookKey(k.live.value) == key
       && k.storage == Some(Tracking(d, Some(key), true))
  }

  ghost predicate EntriesOk(s: State) { forall key :: key in s.connections ==> EntryOk(s, key) }

  /** A step that leaves the writer's socket and the entry alone keeps the entry. */
  lemma EntryStays(s: State, t: State, key: Key)
    requires key in s.connections && EntryOk(s, key)
    requires key in t.connections && t.connections[key] == s.connections[key]
    requires var c := s.connections[key].cookie; c in t.sockets && t.sockets[c] == s.sockets[c]
    ensures EntryOk(t, key)
  {
  }

  lemma ConnectEntry(s: State, cookie: nat, target: Endpoint, stored: bool, key: Key)
    requires EntriesOk(s) && key in ConnectStep(s, cookie, target, stored).connections
    ensures EntryOk(ConnectStep(s, cookie, target, stored), key)
  {
    hide PassesThrough, HookKey;
    assert EntryOk(s, key);
    EntryStays(s, ConnectStep(s, cookie, target, stored), key);
  }

  lemma EstablishedEntry(s: State, cookie: nat, tuple: Tuple, updated: bool, key: Key)
    requires SocketsOk(s) && EntriesOk(s) && Sock(s, cookie).live.None?
    requires key in EstablishedStep(s, cookie, tuple, updated).connections
    ensures EntryOk(EstablishedStep(s, cookie, tuple, updated), key)
  {
    hide HookKey, SocketsOk;
    RecordIsOwn(s, cookie);
    if key in s.connections {
      assert EntryOk(s, key);
    }
  }

  lemma RecordIsOwn(s: State, cookie: nat)
    requires SocketsOk(s)
    ensures var storage := Sock(s, cookie).storage; storage.Some? ==> storage.value.original.cookie == cookie
  {
    assert cookie in s.sockets ==> SocketOk(s.sockets[cookie], cookie, s.port);
  }

  lemma ClosedEntry(s: State, cookie: nat, key: Key)
    requires EntriesOk(s) && key in ClosedStep(s, cookie).connections
    ensures EntryOk(ClosedStep(s, cookie), key)
  {
    hide HookKey;
    assert EntryOk(s, key);
  }

  lemma EntryKept(s: State, x: Action, key: Key)
    requires SocketsOk(s) && EntriesOk(s) && Enabled(s, x) && key in Apply(s, x).connections
    ensures EntryOk(Apply(s, x), key)
  {
    hide ConnectStep, EstablishedStep, ClosedStep, EntryOk, TupleFree;
    match x {
      case Connect(cookie, target, stored) => ConnectEntry(s, cookie, target, stored, key);
      case Established(cookie, netns, source, updated) =>
        EstablishedEntry(s, cookie, Tuple(netns, source, ConnectedTo(Sock(s, cookie), s.port).value), updated, key);
      case Closed(cookie) => ClosedEntry(s, cookie, key);
      case Accept(_, _) =>
        WriterThere(s, key);
        EntryStays(s, Apply(s, x), key);
      case Evict(_) =>
        WriterThere(s, key);
        EntryStays(s, Apply(s, x), key);
    }
  }

  lemma WriterThere(s: State, key: Key)
    requires EntriesOk(s) && key in s.connections
    ensures EntryOk(s, key) && s.connections[key].cookie in s.sockets
  {
  }

  lemma {:induction false} EntriesHold(port: nat, xs: seq<Action>)
    ensures EntriesOk(Run(port, xs))
  {
    hide Apply, Enabled, SocketsOk, EntryOk;
    if |xs| > 0 {
      var s, x := Run(port, xs[..|xs| - 1]), xs[|xs| - 1];
      EntriesHold(port, xs[..|xs| - 1]);
      SocketsHold(port, xs[..|xs| - 1]);
      if Enabled(s, x) {
        forall key | key in Apply(s, x).connections ensures EntryOk(Apply(s, x), key) {
          EntryKept(s, x, key);
        }
      }
    }
  }

  // ---------------------------------------------------------------- what is found

  /** A socket that is live at the worker's own address. */
  predicate ReachesWorker(k: Socket, port: nat) { k.live.Some? && AtWorker(k.live.value, port) }

  /** Two sockets that reach the worker never share a key. */
  lemma OneClientPerKey(s: State, c: nat, e: nat)
    requires SocketsOk(s) && c in s.sockets && e in s.sockets
    requires ReachesWorker(s.sockets[c], s.port) && ReachesWorker(s.sockets[e], s.port)
    requires HookKey(s.sockets[c].live.value) == HookKey(s.sockets[e].live.value)
    ensures c == e
  {
    assert SocketOk(s.sockets[c], c, s.port) && SocketOk(s.sockets[e], e, s.port);
    assert Alike(s.sockets[c], s.sockets[e]);
  }

  /** A writer that does not reach the worker, under a client's key, went straight to a loopback address beside it. */
  lemma StrayWriter(s: State, w: nat, c: nat)
    requires SocketsOk(s) && w in s.sockets && c in s.sockets && s.sockets[w].live.Some?
    requires ReachesWorker(s.sockets[c], s.port)
    requires HookKey(s.sockets[w].live.value) == HookKey(s.sockets[c].live.value)
    ensures var k := s.sockets[w];
      k.asked.Some? && (!ReachesWorker(k, s.port) <==> BesideWorker(k.asked.value, s.port))
    ensures var k := s.sockets[w]; !ReachesWorker(k, s.port) ==> !k.redirected
  {
    assert SocketOk(s.sockets[w], w, s.port) && SocketOk(s.sockets[c], c, s.port);
  }

  /** What a lookup under a key finds, in every run: nothing, or the record of a live socket with that key. That record
      is what its writer last asked for exactly when the writer's last connect was redirected. */
  lemma EntryIsWriters(port: nat, xs: seq<Action>, key: Key)
    requires key in Run(port, xs).connections
    ensures var s := Run(port, xs);
      var d := s.connections[key];
      && d.cookie in s.sockets && s.sockets[d.cookie].live.Some? && HookKey(s.sockets[d.cookie].live.value) == key
      && (s.sockets[d.cookie].asked == Some(d.peer) <==> s.sockets[d.cookie].redirected)
  {
    hide Run;
    SocketsHold(port, xs);
    EntriesHold(port, xs);
    var s := Run(port, xs);
    assert EntryOk(s, key);
    assert SocketOk(s.sockets[s.connections[key].cookie], s.connections[key].cookie, port);
  }

  /** No misrouted TCP, exactly. In every run, a lookup under the key of a client that reaches the worker finds that
      client's own record exactly when the entry's writer did not connect straight to another loopback address on the
      proxy port; and a redirected client's own record is what it asked for. */
  lemma NoMisroutedTcp(port: nat, xs: seq<Action>, c: nat)
    requires var s := Run(port, xs);
      && c in s.sockets && ReachesWorker(s.sockets[c], port)
      && HookKey(s.sockets[c].live.value) in s.connections
    ensures var s := Run(port, xs);
      var k, d := s.sockets[c], s.connections[HookKey(s.sockets[c].live.value)];
      && d.cookie in s.sockets && s.sockets[d.cookie].asked.Some?
      && (d.cookie == c <==> !BesideWorker(s.sockets[d.cookie].asked.value, port))
      && (d.cookie == c ==> RecordOf(k) == Some(d) && (k.redirected <==> k.asked == Some(d.peer)))
  {
    hide Run, BesideWorker;
    SocketsHold(port, xs);
    EntriesHold(port, xs);
    var s := Run(port, xs);
    var key := HookKey(s.sockets[c].live.value);
    var d := s.connections[key];
    EntryIsWriters(port, xs, key);
    assert EntryOk(s, key);
    StrayWriter(s, d.cookie, c);
    if ReachesWorker(s.sockets[d.cookie], port) {
      OneClientPerKey(s, c, d.cookie);
    }
  }

  /** getpeername shows what the socket asked for exactly when its latest connect was redirected, or nothing was
      redirected before it in the same family. Otherwise it shows where that earlier one was headed. */
  lemma PeerNameExactly(port: nat, xs: seq<Action>, cookie: nat)
    requires Sock(Run(port, xs), cookie).asked.Some?
    ensures var k := Sock(Run(port, xs), cookie);
      var shown := PeerName(k, ConnectedTo(k, port).value);
      && (shown == k.asked.value <==>
            k.redirected || k.storage.None? || (k.storage.value.original.peer.V6? <==> k.asked.value.V4?))
      && (shown != k.asked.value ==> k.storage.Some? && shown == k.storage.value.original.peer)
  {
    hide Run;
    SocketsHold(port, xs);
    assert SocketOk(Sock(Run(port, xs), cookie), cookie, port);
  }

  /** restore for a stream socket: the peer name shown for the address it is connected to. */
  function PeerName(k: Socket, seen: Endpoint): Endpoint
  {
    if k.storage.Some? && (k.storage.value.original.peer.V6? <==> seen.V6?) then k.storage.value.original.peer else seen
  }

  /** Without any assumption about tuples: a close callback removes no entry that another socket wrote. */
  lemma CloseDeletesOwnEntry(s: State, cookie: nat, key: Key)
    requires SocketOk(Sock(s, cookie), cookie, s.port)
    requires key in s.connections && key !in ClosedStep(s, cookie).connections
    ensures s.connections[key].cookie == cookie
  {
  }

  /** Nothing is found under a key that no live socket has. */
  lemma FreeKeyIsEmpty(port: nat, xs: seq<Action>, key: Key)
    requires forall c :: c in Run(port, xs).sockets ==>
      var live := Run(port, xs).sockets[c].live; live.Some? ==> HookKey(live.value) != key
    ensures key !in Run(port, xs).connections
  {
    hide Run;
    EntriesHold(port, xs);
    assert key in Run(port, xs).connections ==> EntryOk(Run(port, xs), key);
  }
}
