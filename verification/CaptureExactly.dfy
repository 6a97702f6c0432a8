/** What each hook of the TCP capture does to the reverse map and to the connection, in every run and for both address
    families. */
module CaptureExactly {
  import opened Text
  import opened Capture

  /** 127.0.0.0 to 127.255.255.255, or ::1. */
  predicate OnLoopback(e: Endpoint)
  {
    || (e.V4? && 0x7f00_0000 <= e.ip <= 0x7fff_ffff)
    || (e.V6? && e.w0 == 0 && e.w1 == 0 && e.w2 == 0 && e.w3 == 1)
  }

  lemma RunMore(port: nat, xs: seq<Action>, x: Action)
    ensures var s := Run(port, xs);
      Run(port, xs + [x]) == if Enabled(s, x) then Apply(s, x) else s
  {
    assert (xs + [x])[..|xs|] == xs;
  }

  // ---------------------------------------------------------------- connects

  /** In every run a connect of a socket that is not connected goes where it asked exactly when that is a loopback
      address and not port 53. Any other goes to the worker, and the socket keeps what it asked for; without room for
      that it fails. */
  lemma ConnectExactly(port: nat, xs: seq<Action>, c: nat, target: Endpoint, stored: bool)
    ensures var s, t := Run(port, xs), Run(port, xs + [Connect(c, target, stored)]);
      var k, m := Sock(s, c), Sock(t, c);
      var direct := OnLoopback(target) && target.port != 53;
      && t.connections == s.connections && t.accepted == s.accepted
      && (forall e :: e != c ==> Sock(t, e) == Sock(s, e))
      && (if k.live.Some? || (!direct && !stored) then m == k
          else
            && m.asked == Some(target) && m.redirected == !direct && m.live == None && m.serial == k.serial
            && RecordOf(m) == (if direct then RecordOf(k) else Some(Destination(c, target))))
  {
    hide Run;
    RunMore(port, xs, Connect(c, target, stored));
  }

  /** Where the latest connect of a socket leads: straight to what it asked for, or to the worker. */
  predicate LeadsTo(k: Socket, port: nat, remote: Endpoint)
  {
    && k.asked.Some?
    && remote == if !k.redirected then k.asked.value
                 else if k.asked.value.V4? then V4(0x7f00_0001, port) else V6(0, 0, 0, 1, port)
  }

  /** In every run every live connection ends on the loopback. What it asked for is a loopback address other than port
      53, or it ends at the worker. */
  lemma NothingEscapes(port: nat, xs: seq<Action>, c: nat)
    requires Sock(Run(port, xs), c).live.Some?
    ensures var k := Sock(Run(port, xs), c);
      var remote := k.live.value.remote;
      && OnLoopback(remote) && LeadsTo(k, port, remote)
      && (k.redirected <==> !OnLoopback(k.asked.value) || k.asked.value.port == 53)
  {
    hide Run;
    SocketsHold(port, xs);
    assert SocketOk(Run(port, xs).sockets[c], c, port);
  }

  // ---------------------------------------------------------------- the record of a connection

  /** The kernel completes a connect of the socket from this source address. */
  ghost predicate Completes(s: State, x: Action, remote: Endpoint)
  {
    && x.Established? && LeadsTo(Sock(s, x.cookie), s.port, remote) && Sock(s, x.cookie).live == None
    && (x.source.V4? <==> remote.V4?) && !Mapped(x.source)
    && forall e :: e in s.sockets ==> s.sockets[e].live != Some(Tuple(x.netns, x.source, remote))
  }

  lemma CompletesExactly(s: State, x: Action)
    requires x.Established?
    ensures Enabled(s, x) <==> exists remote :: Completes(s, x, remote)
    ensures Enabled(s, x) ==>
      ConnectedTo(Sock(s, x.cookie), s.port).Some? && Completes(s, x, ConnectedTo(Sock(s, x.cookie), s.port).value)
  {
    hide Mapped;
    var remote := ConnectedTo(Sock(s, x.cookie), s.port);
    if Enabled(s, x) {
      assert Completes(s, x, remote.value);
    }
    if e :| Completes(s, x, e) {
      assert remote == Some(e);
      assert TupleFree(s, Tuple(x.netns, x.source, e));
    }
  }

  /** In every run and for both families, a completed connect of a socket with a record puts that record under the
      socket's own key, if the map takes it, and touches no other key. */
  lemma EstablishedExactly(port: nat, xs: seq<Action>, x: Action, remote: Endpoint)
    requires Completes(Run(port, xs), x, remote)
    ensures var s, t := Run(port, xs), Run(port, xs + [x]);
      var k, m := Sock(s, x.cookie), Sock(t, x.cookie);
      && m.live == Some(Tuple(x.netns, x.source, remote)) && m.serial == k.serial + 1
      && m.asked == k.asked && m.redirected == k.redirected && RecordOf(m) == RecordOf(k)
      && (forall e :: e != x.cookie ==> Sock(t, e) == Sock(s, e))
      && t.connections == if x.updated && RecordOf(k).Some?
                          then s.connections[Key(x.netns, x.source, remote.port) := RecordOf(k).value]
                          else s.connections
  {
    hide Run, Mapped, TupleFree;
    RunMore(port, xs, x);
    CompletesExactly(Run(port, xs), x);
  }

  /** After a redirected connect to an address completes, its key holds that address, in every run and for both
      families. */
  lemma RedirectIsRecorded(port: nat, xs: seq<Action>, c: nat, netns: nat, source: Endpoint, asked: Endpoint)
    requires var k := Sock(Run(port, xs), c); k.redirected && k.asked == Some(asked)
    requires exists remote :: Completes(Run(port, xs), Established(c, netns, source, true), remote)
    ensures var t := Run(port, xs + [Established(c, netns, source, true)]);
      var key := Key(netns, source, port);
      key in t.connections && t.connections[key] == Destination(c, asked)
  {
    hide Run, Completes;
    var x := Established(c, netns, source, true);
    var remote :| Completes(Run(port, xs), x, remote);
    EstablishedExactly(port, xs, x, remote);
    RecordIsAsked(port, xs, c);
    WorkerPort(Run(port, xs), x, remote);
    SocketsHold(port, xs);
  }

  lemma RecordIsAsked(port: nat, xs: seq<Action>, c: nat)
    ensures var k := Sock(Run(port, xs), c);
      k.redirected && k.asked.Some? ==> RecordOf(k) == Some(Destination(c, k.asked.value))
  {
    hide Run;
    SocketsHold(port, xs);
    var s := Run(port, xs);
    assert c in s.sockets ==> SocketOk(s.sockets[c], c, port);
  }

  lemma WorkerPort(s: State, x: Action, remote: Endpoint)
    requires Completes(s, x, remote) && Sock(s, x.cookie).redirected
    ensures remote.port == s.port
  {
  }

  // ---------------------------------------------------------------- how long it stays

  /** In every run the close of a live socket takes away exactly the entries that socket wrote. */
  lemma CloseExactly(port: nat, xs: seq<Action>, c: nat)
    requires Sock(Run(port, xs), c).live.Some?
    ensures var s, t := Run(port, xs), Run(port, xs + [Closed(c)]);
      && Sock(t, c) == Sock(s, c).(live := None) && (forall e :: e != c ==> Sock(t, e) == Sock(s, e))
      && t.accepted == s.accepted && t.connections.Keys <= s.connections.Keys
      && forall key :: key in s.connections ==>
           && (key in t.connections <==> s.connections[key].cookie != c)
           && (key in t.connections ==> t.connections[key] == s.connections[key])
  {
    hide Run, HookKey, SocketsOk;
    RunMore(port, xs, Closed(c));
    SocketsHold(port, xs);
    RecordIsOwn(Run(port, xs), c);
    EntriesHold(port, xs);
    var s := Run(port, xs);
    forall key | key in s.connections
      ensures s.connections[key].cookie == c ==>
        Sock(s, c).storage == Some(Tracking(s.connections[key], Some(key), true))
    {
      assert EntryOk(s, key);
    }
  }

  /** A step that ends an entry: its eviction, the close of its writer, or another connection under the same key. */
  ghost predicate Displaces(s: State, x: Action, key: Key, d: Destination)
  {
    match x
    case Evict(k) => k == key
    case Closed(c) => c == d.cookie
    case Established(c, netns, source, updated) =>
      && updated && RecordOf(Sock(s, c)).Some? && netns == key.netns && source == key.source
      && exists remote :: Completes(s, x, remote) && remote.port == key.proxyPort
    case _ => false
  }

  /** In every run a step ends an entry exactly if it evicts it, closes its writer, or completes another recorded
      connection under the same key. */
  lemma EntryEndsExactly(port: nat, xs: seq<Action>, x: Action, key: Key)
    requires key in Run(port, xs).connections
    ensures var s, t := Run(port, xs), Run(port, xs + [x]);
      !(key in t.connections && t.connections[key] == s.connections[key]) <==>
      Displaces(s, x, key, s.connections[key])
  {
    hide Run, Completes, SocketsOk;
    RunMore(port, xs, x);
    SocketsHold(port, xs);
    EntriesHold(port, xs);
    var s := Run(port, xs);
    assert EntryOk(s, key);
    match x {
      case Established(c, netns, source, updated) =>
        CompletesExactly(s, x);
        if remote :| Completes(s, x, remote) {
          EstablishedExactly(port, xs, x, remote);
          OneRemote(s, x, remote);
          RecordIsOwn(s, c);
          NotLive(s, x, remote);
        }
      case Evict(_) =>
      case Closed(c) =>
        if Sock(s, c).live.Some? {
          CloseExactly(port, xs, c);
        }
      case _ =>
    }
  }

  lemma NotLive(s: State, x: Action, remote: Endpoint)
    requires Completes(s, x, remote)
    ensures Sock(s, x.cookie).live == None
  {
  }

  lemma OneRemote(s: State, x: Action, remote: Endpoint)
    requires Completes(s, x, remote)
    ensures forall e :: Completes(s, x, e) ==> e == remote
  {
  }

  /** Until then it stays, through every continuation. */
  lemma {:induction false} EntryStaysUntil(port: nat, xs: seq<Action>, ys: seq<Action>, key: Key, d: Destination)
    requires key in Run(port, xs).connections && Run(port, xs).connections[key] == d
    requires forall n: nat :: n < |ys| ==> !Displaces(Run(port, xs + ys[..n]), ys[n], key, d)
    ensures var t := Run(port, xs + ys); key in t.connections && t.connections[key] == d
    decreases ys
  {
    hide Run, Displaces;
    if |ys| == 0 {
      assert xs + ys == xs;
    } else {
      var n := |ys| - 1;
      forall m: nat | m < n ensures !Displaces(Run(port, xs + ys[..n][..m]), ys[..n][m], key, d) {
        assert ys[..n][..m] == ys[..m];
      }
      EntryStaysUntil(port, xs, ys[..n], key, d);
      EntryEndsExactly(port, xs + ys[..n], ys[n], key);
      assert xs + ys == xs + ys[..n] + [ys[n]];
    }
  }

  /** From the completion of a redirected connect on, through any later steps that neither evict the entry, nor close
      the socket, nor complete another connection under its key, the key holds what the socket asked for. */
  lemma RedirectStaysRecorded(port: nat, xs: seq<Action>, c: nat, netns: nat, source: Endpoint, asked: Endpoint,
                              ys: seq<Action>)
    requires var k := Sock(Run(port, xs), c); k.redirected && k.asked == Some(asked)
    requires exists remote :: Completes(Run(port, xs), Established(c, netns, source, true), remote)
    requires forall n: nat :: n < |ys| ==>
      !Displaces(Run(port, xs + [Established(c, netns, source, true)] + ys[..n]), ys[n],
                 Key(netns, source, port), Destination(c, asked))
    ensures var t := Run(port, xs + [Established(c, netns, source, true)] + ys);
      var key := Key(netns, source, port);
      key in t.connections && t.connections[key] == Destination(c, asked)
  {
    hide Run, Completes, Displaces;
    RedirectIsRecorded(port, xs, c, netns, source, asked);
    EntryStaysUntil(port, xs + [Established(c, netns, source, true)], ys, Key(netns, source, port),
                    Destination(c, asked));
  }

  // ---------------------------------------------------------------- the worker's end

  /** In every run the worker accepts exactly a live connection that ends at its own address. It then holds the client's
      own key, the client's connection, and what that asked for if it was redirected. */
  lemma AcceptExactly(port: nat, xs: seq<Action>, conn: nat, c: nat)
    ensures var s, t := Run(port, xs), Run(port, xs + [Accept(conn, c)]);
      var k, worker := Sock(s, c), {V4(0x7f00_0001, port), V6(0, 0, 0, 1, port)};
      if conn !in s.accepted && k.live.Some? && k.live.value.remote in worker then
        && t.sockets == s.sockets && t.connections == s.connections
        && conn in t.accepted && t.accepted == s.accepted[conn := t.accepted[conn]]
        && var a := t.accepted[conn];
           && a.tuple == k.live.value && a.key == Key(a.tuple.netns, a.tuple.source, port)
           && a.cookie == c && a.serial == k.serial
           && (k.redirected ==> k.asked.Some? && a.record == Some(Destination(c, k.asked.value)))
      else t == s
  {
    hide Run;
    RunMore(port, xs, Accept(conn, c));
    SocketsHold(port, xs);
    RecordIsAsked(port, xs, c);
    var s := Run(port, xs);
    assert c in s.sockets ==> SocketOk(s.sockets[c], c, port);
  }
}
