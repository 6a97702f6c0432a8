/** UDP DNS capture: each socket owns eight slots, and slot i stands for the loopback port dns_base + i. */
module DnsCapture {
  import opened Text
  import opened Capture
  import opened CaptureExactly

  const SLOTS: nat := 8

  /** Arithmetic on uint16. */
  function U16(n: nat): nat { n % 0x1_0000 }

  // ---------------------------------------------------------------- accepted ports

  /** The listener-port part of validate, after defaults. DNSBase+8 and DNSBase+7 wrap as uint16. */
  predicate PortsAccepted(tcpPort: nat, dnsBase: nat)
  {
    && dnsBase <= 65528
    && !(tcpPort >= dnsBase && tcpPort < U16(dnsBase + 8))
    && tcpPort != 53
    && !(dnsBase <= 53 && U16(dnsBase + 7) >= 53)
  }

  predicate Overlap(tcpPort: nat, dnsBase: nat) { dnsBase <= tcpPort < dnsBase + SLOTS }

  /** validate fills the defaults in place before it checks. */
  method ValidatePorts(tcpPort: nat, dnsBase: nat) returns (ok: bool, tcp: nat, dns: nat)
    requires tcpPort < 0x1_0000 && dnsBase < 0x1_0000
    ensures tcp == (if tcpPort == 0 then 15001 else tcpPort) && dns == if dnsBase == 0 then 15053 else dnsBase
    ensures ok == PortsAccepted(tcp, dns)
    ensures ok ==> dns + SLOTS <= 0x1_0000 && !(dns <= 53 < dns + SLOTS)
  {
    tcp, dns := tcpPort, dnsBase;
    if tcp == 0 {
      tcp := 15001;
    }
    if dns == 0 {
      dns := 15053;
    }
    ok := !(dns > 65528 || (tcp >= dns && tcp < U16(dns + 8)) || tcp == 53 || (dns <= 53 && U16(dns + 7) >= 53));
  }

  /** For one DNS base, the check keeps every accepted TCP port out of the DNS range exactly when
      the range ends below the last port; at 65528 the bound wraps to zero. */
  lemma OverlapExcludedExactly(dnsBase: nat)
    requires 0 < dnsBase <= 65528 && !(dnsBase <= 53 < dnsBase + SLOTS)
    ensures (forall tcp: nat :: tcp < 0x1_0000 && PortsAccepted(tcp, dnsBase) ==> !Overlap(tcp, dnsBase)) <==>
      dnsBase < 65528
  {
    if dnsBase == 65528 {
      assert PortsAccepted(65530, dnsBase) && Overlap(65530, dnsBase);
    }
  }

  /** Apart from the base at which the bound wraps, the check accepts exactly the ranges that end by the last port and
      hold neither port 53 nor the TCP port, with a TCP port other than 53. */
  lemma PortsExactly(tcpPort: nat, dnsBase: nat)
    requires 0 < tcpPort < 0x1_0000 && 0 < dnsBase < 0x1_0000
    ensures PortsAccepted(tcpPort, dnsBase) <==>
      && dnsBase + 7 <= 65535 && tcpPort != 53 && !(dnsBase <= 53 <= dnsBase + 7)
      && (dnsBase == 65528 || !(dnsBase <= tcpPort <= dnsBase + 7))
  {
  }

  // ---------------------------------------------------------------- specification

  /** The peers a socket has used, in slot order. */
  type Table = seq<Endpoint>

  ghost predicate Wellformed(t: Table)
  {
    |t| <= SLOTS && forall i, j :: 0 <= i < j < |t| ==> t[i] != t[j]
  }

  /** Position of a peer in the table, or its length. */
  function Find(t: Table, e: Endpoint): (i: nat)
    ensures i <= |t| && (i < |t| ==> t[i] == e) && e !in t[..i]
  {
    if |t| == 0 || t[0] == e then 0 else 1 + Find(t[1..], e)
  }

  function Slot(t: Table, e: Endpoint): Option<nat>
  {
    if Find(t, e) < SLOTS then Some(Find(t, e)) else None
  }

  function Grow(t: Table, e: Endpoint): Table
  {
    if Find(t, e) == |t| && |t| < SLOTS then t + [e] else t
  }

  /** One datagram sent, and whether the socket's storage was there or could be made. */
  datatype Send = Send(target: Endpoint, stored: bool)

  /** The datagram half of redirect: the rewritten destination, or None when the send is refused. */
  function Redirect(t: Table, x: Send, dnsBase: nat): Option<Endpoint>
  {
    if x.target.port != 53 then (if Loopback(x.target) then Some(x.target) else None)
    else if !x.stored then None
    else match Slot(t, x.target)
      case None => None
      case Some(i) => Some(ToLocal(x.target, U16(dnsBase + i)))
  }

  function AfterSend(t: Table, x: Send): Table
  {
    if x.target.port == 53 && x.stored then Grow(t, x.target) else t
  }

  /** restore for a datagram: the address a reader of the socket is shown. */
  function Restore(t: Table, e: Endpoint, dnsBase: nat): Endpoint
  {
    if e.port < dnsBase || e.port >= dnsBase + SLOTS || !Loopback(e) then e
    else
      var i := e.port - dnsBase;
      if i < |t| && (t[i].V6? <==> e.V6?) then t[i] else e
  }

  function Sends(t: Table, xs: seq<Send>): Table
    decreases xs
  {
    if |xs| == 0 then t else Sends(AfterSend(t, xs[0]), xs[1..])
  }

  // ---------------------------------------------------------------- round trip

  lemma GrowKeeps(t: Table, e: Endpoint)
    requires Wellformed(t)
    ensures Wellformed(Grow(t, e)) && t <= Grow(t, e)
    ensures Slot(t, e).Some? ==> Slot(t, e).value < |Grow(t, e)| && Grow(t, e)[Slot(t, e).value] == e
  {
    if Find(t, e) == |t| {
      assert t[..|t|] == t;
    }
  }

  /** Whatever a socket sends, its table only grows at the end, stays free of duplicates and never
      holds more than eight peers. */
  lemma {:induction false} SendsKeep(t: Table, xs: seq<Send>)
    requires Wellformed(t)
    ensures Wellformed(Sends(t, xs)) && t <= Sends(t, xs)
    decreases xs
  {
    if |xs| > 0 {
      GrowKeeps(t, xs[0].target);
      SendsKeep(AfterSend(t, xs[0]), xs[1..]);
    }
  }

  /** Round trip: after any sends, if a DNS query to e is redirected to some loopback port, then at any
      later time a datagram from that port is shown as coming from e, with its original port. */
  lemma RestoreUndoesRedirect(before: seq<Send>, x: Send, later: seq<Send>, dnsBase: nat)
    requires x.target.port == 53 && dnsBase + SLOTS <= 0x1_0000
    requires Redirect(Sends([], before), x, dnsBase).Some?
    ensures var t := Sends([], before);
      var there := Redirect(t, x, dnsBase).value;
      && dnsBase <= there.port < dnsBase + SLOTS && Loopback(there)
      && Restore(Sends(AfterSend(t, x), later), there, dnsBase) == x.target
  {
    hide Sends, Find, Grow, Slot;
    var t := Sends([], before);
    SendsKeep([], before);
    GrowKeeps(t, x.target);
    SendsKeep(AfterSend(t, x), later);
  }

  /** Two peers of one family never share a port. */
  lemma PortsDiffer(t: Table, x: Send, y: Send, dnsBase: nat)
    requires x.target.port == y.target.port == 53 && x.target != y.target && (x.target.V6? <==> y.target.V6?)
    requires dnsBase + SLOTS <= 0x1_0000 && Wellformed(t)
    requires Redirect(t, x, dnsBase).Some? && Redirect(AfterSend(t, x), y, dnsBase).Some?
    ensures Redirect(t, x, dnsBase) != Redirect(AfterSend(t, x), y, dnsBase)
  {
    hide Find, Grow;
    GrowKeeps(t, x.target);
    GrowKeeps(Grow(t, x.target), y.target);
  }

  /** A query is refused exactly when the socket has no storage or eight other peers hold the slots, and then changes
      nothing. */
  lemma NinthPeerRefused(t: Table, x: Send, dnsBase: nat)
    requires Wellformed(t) && x.target.port == 53
    ensures Redirect(t, x, dnsBase).None? <==> !x.stored || (|t| == SLOTS && x.target !in t)
    ensures Redirect(t, x, dnsBase).None? ==> AfterSend(t, x) == t
  {
    assert t[..|t|] == t;
  }

  // ---------------------------------------------------------------- what leaves the socket

  /** For every table, send and base: whatever is let through goes to a loopback address. A send to a port other than 53
      is let through unchanged exactly when its target is such an address. */
  lemma OnlyLoopbackLeaves(t: Table, x: Send, dnsBase: nat)
    ensures var there := Redirect(t, x, dnsBase);
      && (there.Some? ==> OnLoopback(there.value))
      && (x.target.port != 53 ==> there == if OnLoopback(x.target) then Some(x.target) else None)
      && (x.target.port != 53 ==> AfterSend(t, x) == t)
  {
  }

  /** A query goes to the loopback address of its family, on the port of its peer's slot. A peer the socket has used
      keeps its slot, and a new one takes the next while fewer than eight are taken. */
  lemma QueryExactly(t: Table, x: Send, dnsBase: nat)
    requires Wellformed(t) && x.target.port == 53
    ensures var there, next := Redirect(t, x, dnsBase), AfterSend(t, x);
      && (there.Some? <==> x.stored && (x.target in t || |t| < 8))
      && next == (if there.Some? && x.target !in t then t + [x.target] else t)
      && (there.Some? ==>
            exists i: nat :: i < |next| && next[i] == x.target && there.value ==
              if x.target.V4? then V4(0x7f00_0001, (dnsBase + i) % 65536)
              else V6(0, 0, 0, 1, (dnsBase + i) % 65536))
  {
    var i := Find(t, x.target);
    assert t[..|t|] == t;
    if i < |t| {
      assert t[i] in t;
    }
    if Redirect(t, x, dnsBase).Some? {
      assert AfterSend(t, x)[i] == x.target;
    }
  }

  /** For every table, address and base: an address is shown as another exactly when it is a loopback address in the DNS
      range, its slot is taken, and the slot's peer is of its family and is not that address. It is then that peer. */
  lemma RestoreExactly(t: Table, e: Endpoint, dnsBase: nat)
    ensures var shown := Restore(t, e, dnsBase);
      && (!OnLoopback(e) || e.port < dnsBase || e.port > dnsBase + 7 ==> shown == e)
      && (OnLoopback(e) && dnsBase <= e.port <= dnsBase + 7 ==>
            var slot := e.port - dnsBase;
            if slot < |t| && (t[slot].V4? <==> e.V4?) then shown == t[slot] else shown == e)
  {
  }

  // ---------------------------------------------------------------- implementation

  /** One UDP socket's storage: eight fixed slots, empty ones last. */
  class UdpSocket {
    const peers: array<Option<Endpoint>>
    ghost var table: Table

    ghost predicate Valid()
      reads this, peers
    {
      && peers.Length == SLOTS && Wellformed(table)
      && forall i :: 0 <= i < SLOTS ==> peers[i] == if i < |table| then Some(table[i]) else None
    }

    constructor ()
      ensures Valid() && table == [] && fresh(peers)
    {
      peers := new Option<Endpoint>[8](_ => None);
      table := [];
    }

    /** dns_slot: one pass that looks for the peer and remembers the first empty slot. */
    method DnsSlot(x: Send) returns (slot: int)
      requires Valid() && x.target.port == 53
      modifies this, peers
      ensures Valid() && table == AfterSend(old(table), x)
      ensures slot == if !x.stored then -1 else match Slot(old(table), x.target) case Some(i) => i case None => -1
    {
      if !x.stored {
        return -1;
      }
      var e := x.target;
      var vacant := -1;
      var i := 0;
      while i < SLOTS
        invariant 0 <= i <= SLOTS && Valid() && table == old(table) && unchanged(peers)
        invariant vacant == if i <= |table| then -1 else |table|
        invariant forall j :: 0 <= j < i ==> peers[j] != Some(e)
      {
        if peers[i].None? && vacant < 0 {
          vacant := i;
        }
        if peers[i] == Some(e) {
          Located(table, e, i);
          return i;
        }
        i := i + 1;
      }
      Absent(table, e);
      if vacant < 0 {
        return -1;
      }
      peers[vacant] := Some(e);
      table := table + [e];
      slot := vacant;
    }
  }

  lemma Located(t: Table, e: Endpoint, i: nat)
    requires Wellformed(t) && i < |t| && t[i] == e
    ensures Find(t, e) == i
  {
    assert t[..|t|] == t;
  }

  lemma Absent(t: Table, e: Endpoint)
    requires forall j :: 0 <= j < |t| ==> t[j] != e
    ensures Find(t, e) == |t|
  {
  }
}
