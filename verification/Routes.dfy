/** Egress routing of a captured connection: longest-prefix match over the declared routes, then the
    Internet socket for public addresses on authorized ports. */
module Routes {
  import opened Text

  // ---------------------------------------------------------------- prefixes

  datatype Addr = A4(n: nat) | A6(n: nat)

  function Width(a: Addr): nat { if a.A4? then 32 else 128 }

  /** A parsed prefix. Its host bits need not be zero: Contains ignores them. */
  datatype Prefix = Prefix(addr: Addr, bits: nat)

  predicate ValidPrefix(p: Prefix) { p.bits <= Width(p.addr) }

  function Pow2(n: nat): (r: nat)
    ensures r > 0
  {
    if n == 0 then 1 else 2 * Pow2(n - 1)
  }

  /** The leading bits of an address. */
  function Lead(a: Addr, bits: nat): int
    requires bits <= Width(a)
  {
    a.n / Pow2(Width(a) - bits)
  }

  /** netip.Prefix.Contains: the same family and the same leading bits. */
  predicate Contains(p: Prefix, a: Addr)
    requires ValidPrefix(p)
  {
    (p.addr.A4? <==> a.A4?) && Lead(a, p.bits) == Lead(p.addr, p.bits)
  }

  /** Two prefixes that denote the same block of addresses. */
  predicate SameBlock(p: Prefix, q: Prefix)
    requires ValidPrefix(p) && ValidPrefix(q)
  {
    (p.addr.A4? <==> q.addr.A4?) && p.bits == q.bits && Lead(p.addr, p.bits) == Lead(q.addr, q.bits)
  }

  function B4(a: nat, b: nat, c: nat, d: nat, bits: nat): Prefix
  {
    Prefix(A4(((a * 256 + b) * 256 + c) * 256 + d), bits)
  }

  function B6(top: nat, bits: nat): Prefix { Prefix(A6(top * Pow2(112)), bits) }

  const FORBIDDEN: seq<Prefix> := [
    B4(0, 0, 0, 0, 8), B4(10, 0, 0, 0, 8), B4(100, 64, 0, 0, 10), B4(127, 0, 0, 0, 8), B4(169, 254, 0, 0, 16),
    B4(172, 16, 0, 0, 12), B4(192, 0, 0, 0, 24), B4(192, 168, 0, 0, 16), B4(198, 18, 0, 0, 15), B4(224, 0, 0, 0, 4),
    B4(240, 0, 0, 0, 4), Prefix(A6(0), 128), Prefix(A6(1), 128), Prefix(A6(0xffff * Pow2(32)), 96), B6(0x0200, 7),
    B6(0xfc00, 7), B6(0xfe80, 10), B6(0xfec0, 10), B6(0xff00, 8)]

  lemma ForbiddenValid()
    ensures forall p :: p in FORBIDDEN ==> ValidPrefix(p)
  {
  }

  predicate IsForbidden(a: Addr)
  {
    exists i :: 0 <= i < |FORBIDDEN| && ValidPrefix(FORBIDDEN[i]) && Contains(FORBIDDEN[i], a)
  }

  /** A prefix contains exactly the addresses of its family from its own with the host bits cleared, as many as the
      host bits can number. */
  lemma ContainsExactly(p: Prefix, a: Addr)
    requires ValidPrefix(p)
    ensures var size := Pow2(Width(p.addr) - p.bits);
      var first := p.addr.n - p.addr.n % size;
      Contains(p, a) <==> (p.addr.A4? <==> a.A4?) && first <= a.n < first + size
  {
    if p.addr.A4? <==> a.A4? {
      SameQuotient(p.addr.n, a.n, Pow2(Width(p.addr) - p.bits));
    }
  }

  lemma SameQuotient(m: nat, n: nat, size: nat)
    requires size > 0
    ensures n / size == m / size <==> m - m % size <= n < m - m % size + size
  {
    var q := m / size;
    assert m - m % size == q * size;
    if n / size < q {
      assert n < (n / size + 1) * size <= q * size by { Scale(n / size + 1, q, size); }
    } else if n / size > q {
      assert n >= (n / size) * size >= (q + 1) * size by { Scale(q + 1, n / size, size); }
    }
  }

  lemma Scale(a: nat, b: nat, size: nat)
    requires a <= b
    ensures a * size <= b * size
  {
  }

  /** The reserved blocks, by their first and last address. */
  datatype Block = Block4(first: nat, last: nat) | Block6(first: nat, last: nat)

  const RESERVED: seq<Block> := [
    Block4(0x0000_0000, 0x00ff_ffff), Block4(0x0a00_0000, 0x0aff_ffff), Block4(0x6440_0000, 0x647f_ffff),
    Block4(0x7f00_0000, 0x7fff_ffff), Block4(0xa9fe_0000, 0xa9fe_ffff), Block4(0xac10_0000, 0xac1f_ffff),
    Block4(0xc000_0000, 0xc000_00ff), Block4(0xc0a8_0000, 0xc0a8_ffff), Block4(0xc612_0000, 0xc613_ffff),
    Block4(0xe000_0000, 0xefff_ffff), Block4(0xf000_0000, 0xffff_ffff), Block6(0, 0), Block6(1, 1),
    Block6(0xffff_0000_0000, 0xffff_ffff_ffff),
    Block6(0x0200_0000_0000_0000_0000_0000_0000_0000, 0x03ff_ffff_ffff_ffff_ffff_ffff_ffff_ffff),
    Block6(0xfc00_0000_0000_0000_0000_0000_0000_0000, 0xfdff_ffff_ffff_ffff_ffff_ffff_ffff_ffff),
    Block6(0xfe80_0000_0000_0000_0000_0000_0000_0000, 0xfebf_ffff_ffff_ffff_ffff_ffff_ffff_ffff),
    Block6(0xfec0_0000_0000_0000_0000_0000_0000_0000, 0xfeff_ffff_ffff_ffff_ffff_ffff_ffff_ffff),
    Block6(0xff00_0000_0000_0000_0000_0000_0000_0000, 0xffff_ffff_ffff_ffff_ffff_ffff_ffff_ffff)]

  predicate InBlock(b: Block, a: Addr) { (b.Block4? <==> a.A4?) && b.first <= a.n <= b.last }

  predicate Reserved(a: Addr) { exists i :: 0 <= i < |RESERVED| && InBlock(RESERVED[i], a) }

  /** A prefix without host bits is a block. */
  predicate Spans(p: Prefix, b: Block)
  {
    && ValidPrefix(p) && (p.addr.A4? <==> b.Block4?) && p.addr.n == b.first
    && b.first + Pow2(Width(p.addr) - p.bits) == b.last + 1 && b.first % Pow2(Width(p.addr) - p.bits) == 0
  }

  lemma PrefixIsBlock(p: Prefix, b: Block, a: Addr)
    requires Spans(p, b)
    ensures Contains(p, a) <==> InBlock(b, a)
  {
    hide Pow2;
    ContainsExactly(p, a);
  }

  lemma {:induction false} PowersMultiply(m: nat, n: nat)
    ensures Pow2(m + n) == Pow2(m) * Pow2(n)
  {
    if m > 0 {
      PowersMultiply(m - 1, n);
      assert Pow2(m + n) == 2 * Pow2(m - 1 + n);
    }
  }

  lemma SmallPowers()
    ensures Pow2(0) == 1 && Pow2(6) == 0x40 && Pow2(8) == 0x100 && Pow2(9) == 0x200
    ensures Pow2(16) == 0x1_0000 && Pow2(17) == 0x2_0000 && Pow2(20) == 0x10_0000 && Pow2(22) == 0x40_0000
    ensures Pow2(24) == 0x100_0000 && Pow2(28) == 0x1000_0000 && Pow2(32) == 0x1_0000_0000
  {
    assert Pow2(8) == 0x100;
    PowersMultiply(8, 8);
    PowersMultiply(1, 16);
    PowersMultiply(4, 16);
    PowersMultiply(6, 16);
    PowersMultiply(8, 16);
    PowersMultiply(4, 24);
    PowersMultiply(16, 16);
  }

  lemma LargePowers()
    ensures Pow2(112) == 0x1_0000_0000_0000_0000_0000_0000_0000
    ensures Pow2(118) == 0x40_0000_0000_0000_0000_0000_0000_0000
    ensures Pow2(120) == 0x100_0000_0000_0000_0000_0000_0000_0000
    ensures Pow2(121) == 0x200_0000_0000_0000_0000_0000_0000_0000
  {
    hide Pow2;
    SmallPowers();
    PowersMultiply(16, 32);
    PowersMultiply(32, 32);
    PowersMultiply(48, 64);
    PowersMultiply(6, 112);
    PowersMultiply(8, 112);
    PowersMultiply(9, 112);
  }

  lemma ForbiddenSpans4(i: nat)
    requires i < 11
    ensures |FORBIDDEN| == |RESERVED| == 19 && Spans(FORBIDDEN[i], RESERVED[i])
  {
    hide Pow2;
    SmallPowers();
  }

  lemma ForbiddenSpans6(i: nat)
    requires 11 <= i < 19
    ensures |FORBIDDEN| == |RESERVED| == 19 && Spans(FORBIDDEN[i], RESERVED[i])
  {
    hide Pow2;
    SmallPowers();
    LargePowers();
  }

  /** The addresses that the list of prefixes forbids are exactly those of the reserved blocks. */
  lemma ForbiddenExactly(a: Addr)
    ensures IsForbidden(a) <==> Reserved(a)
  {
    hide FORBIDDEN, RESERVED, Contains, InBlock, Spans;
    ForbiddenValid();
    ForbiddenSpans4(0);
    forall i: nat | i < 19
      ensures ValidPrefix(FORBIDDEN[i]) && (Contains(FORBIDDEN[i], a) <==> InBlock(RESERVED[i], a))
    {
      if i < 11 {
        ForbiddenSpans4(i);
      } else {
        ForbiddenSpans6(i);
      }
      assert FORBIDDEN[i] in FORBIDDEN;
      PrefixIsBlock(FORBIDDEN[i], RESERVED[i], a);
    }
  }

  // ---------------------------------------------------------------- specification

  datatype Route = Route(prefix: Prefix, port: nat, socket: string)

  datatype Workload = Workload(routes: seq<Route>, internetPorts: seq<nat>, internetSocket: string)

  predicate ValidRoutes(rs: seq<Route>) { forall i :: 0 <= i < |rs| ==> ValidPrefix(rs[i].prefix) }

  predicate Matches(r: Route, a: Addr, port: nat)
    requires ValidPrefix(r.prefix)
  {
    r.port == port && Contains(r.prefix, a)
  }

  /** Route i is the first of the longest matching ones. */
  ghost predicate IsBest(rs: seq<Route>, a: Addr, port: nat, i: nat)
    requires ValidRoutes(rs)
  {
    && i < |rs| && Matches(rs[i], a, port)
    && (forall j :: 0 <= j < |rs| && Matches(rs[j], a, port) ==> rs[j].prefix.bits <= rs[i].prefix.bits)
    && forall j :: 0 <= j < i && Matches(rs[j], a, port) ==> rs[j].prefix.bits < rs[i].prefix.bits
  }

  function Best(rs: seq<Route>, a: Addr, port: nat): (b: Option<nat>)
    requires ValidRoutes(rs)
    ensures b.Some? ==> b.value < |rs|
  {
    if |rs| == 0 then None
    else
      var n := |rs| - 1;
      var b := Best(rs[..n], a, port);
      if Matches(rs[n], a, port) && (b.None? || rs[n].prefix.bits > rs[b.value].prefix.bits) then Some(n) else b
  }

  /** The socket that workload.target returns, or None when it refuses the destination. */
  function Target(w: Workload, a: Addr, port: nat): Option<string>
    requires ValidRoutes(w.routes)
  {
    var b := Best(w.routes, a, port);
    if b.Some? && w.routes[b.value].socket != "" then Some(w.routes[b.value].socket)
    else if IsForbidden(a) then None
    else if port in w.internetPorts && w.internetSocket != "" then Some(w.internetSocket)
    else None
  }

  // ---------------------------------------------------------------- properties

  /** The chosen route is the first among the longest matching routes, and there is one if any matches. */
  lemma {:induction false} BestIsFirstLongest(rs: seq<Route>, a: Addr, port: nat)
    requires ValidRoutes(rs)
    ensures forall i: nat :: Best(rs, a, port) == Some(i) <==> IsBest(rs, a, port, i)
    ensures Best(rs, a, port).None? <==> forall j :: 0 <= j < |rs| ==> !Matches(rs[j], a, port)
  {
    hide Contains;
    if |rs| > 0 {
      var n := |rs| - 1;
      BestIsFirstLongest(rs[..n], a, port);
      var b := Best(rs[..n], a, port);
      if b.Some? {
        assert IsBest(rs[..n], a, port, b.value);
      }
      BestExtends(rs, a, port);
    }
  }

  /** Appending one route keeps the choice or replaces it. */
  lemma BestExtends(rs: seq<Route>, a: Addr, port: nat)
    requires ValidRoutes(rs) && |rs| > 0
    requires var f := rs[..|rs| - 1];
      && (forall i: nat :: Best(f, a, port) == Some(i) <==> IsBest(f, a, port, i))
      && (Best(f, a, port).None? <==> forall j :: 0 <= j < |f| ==> !Matches(f[j], a, port))
    ensures Best(rs, a, port).Some? ==> IsBest(rs, a, port, Best(rs, a, port).value)
    ensures Best(rs, a, port).None? <==> forall j :: 0 <= j < |rs| ==> !Matches(rs[j], a, port)
  {
    hide Contains;
    var f := rs[..|rs| - 1];
    assert forall j :: 0 <= j < |f| ==> f[j] == rs[j];
    if Best(f, a, port).Some? {
      assert IsBest(f, a, port, Best(f, a, port).value);
    }
  }

  /** A forbidden address is reached only through a declared route that contains it on that port. */
  lemma ForbiddenNeedsRoute(w: Workload, a: Addr, port: nat)
    requires ValidRoutes(w.routes) && IsForbidden(a) && Target(w, a, port).Some?
    ensures exists i: nat :: IsBest(w.routes, a, port, i) && w.routes[i].socket == Target(w, a, port).value
  {
    BestIsFirstLongest(w.routes, a, port);
    assert IsBest(w.routes, a, port, Best(w.routes, a, port).value);
  }

  /** The answer of target: the socket of the first longest matching route, if that has one. Else the Internet socket,
      exactly for an address outside the reserved blocks and a listed port, if there is such a socket. Else none. */
  ghost predicate Answers(w: Workload, a: Addr, port: nat, r: Option<string>)
    requires ValidRoutes(w.routes)
  {
    && (forall i: nat :: IsBest(w.routes, a, port, i) && w.routes[i].socket != "" ==> r == Some(w.routes[i].socket))
    && ((forall i: nat :: IsBest(w.routes, a, port, i) ==> w.routes[i].socket == "") ==>
          r == if !Reserved(a) && port in w.internetPorts && w.internetSocket != "" then Some(w.internetSocket)
               else None)
  }

  lemma TargetExactly(w: Workload, a: Addr, port: nat, r: Option<string>)
    requires ValidRoutes(w.routes)
    ensures Answers(w, a, port, r) <==> r == Target(w, a, port)
  {
    hide IsForbidden, Reserved, Best, IsBest;
    BestIsFirstLongest(w.routes, a, port);
    ForbiddenExactly(a);
    BestIndex(w.routes, a, port);
  }

  lemma BestIndex(rs: seq<Route>, a: Addr, port: nat)
    requires ValidRoutes(rs)
    ensures forall i: nat :: IsBest(rs, a, port, i) ==> i < |rs|
  {
  }

  /** No two routes share a port and a block. */
  predicate NoClash(rs: seq<Route>)
    requires ValidRoutes(rs)
  {
    forall i, j :: 0 <= i < j < |rs| ==> !(rs[i].port == rs[j].port && SameBlock(rs[i].prefix, rs[j].prefix))
  }

  /** Two matching routes of equal length denote the same block. */
  lemma EqualLengthSameBlock(r: Route, q: Route, a: Addr, port: nat)
    requires ValidPrefix(r.prefix) && ValidPrefix(q.prefix) && Matches(r, a, port) && Matches(q, a, port)
    requires r.prefix.bits == q.prefix.bits
    ensures SameBlock(r.prefix, q.prefix)
  {
  }

  /** Reordering the routes never changes a decision, as long as no two share a port and a block. */
  lemma OrderDoesNotMatter(w: Workload, rs: seq<Route>, a: Addr, port: nat)
    requires ValidRoutes(w.routes) && NoClash(w.routes) && multiset(rs) == multiset(w.routes)
    ensures ValidRoutes(rs) && Target(w.(routes := rs), a, port) == Target(w, a, port)
  {
    var qs := w.routes;
    SameElements(qs, rs);
    NoMatchTransfers(qs, rs, a, port);
    NoMatchTransfers(rs, qs, a, port);
    BestIsFirstLongest(qs, a, port);
    BestIsFirstLongest(rs, a, port);
    if Best(qs, a, port).Some? {
      SameChoice(qs, rs, a, port, Best(qs, a, port).value, Best(rs, a, port).value);
    }
  }

  lemma NoMatchTransfers(qs: seq<Route>, rs: seq<Route>, a: Addr, port: nat)
    requires ValidRoutes(qs) && ValidRoutes(rs) && forall r :: r in rs ==> r in qs
    ensures Best(qs, a, port).None? ==> Best(rs, a, port).None?
  {
    BestIsFirstLongest(qs, a, port);
    BestIsFirstLongest(rs, a, port);
    assert forall j :: 0 <= j < |rs| ==> rs[j] in qs;
  }

  lemma SameElements(qs: seq<Route>, rs: seq<Route>)
    requires ValidRoutes(qs) && multiset(rs) == multiset(qs)
    ensures ValidRoutes(rs) && forall r :: r in rs <==> r in qs
  {
    assert forall r :: r in rs <==> r in multiset(rs);
    assert forall r :: r in qs <==> r in multiset(qs);
    assert forall i :: 0 <= i < |rs| ==> rs[i] in qs;
  }

  lemma SameChoice(qs: seq<Route>, rs: seq<Route>, a: Addr, port: nat, i: nat, j: nat)
    requires ValidRoutes(qs) && ValidRoutes(rs) && NoClash(qs) && forall r :: r in rs <==> r in qs
    requires IsBest(qs, a, port, i) && IsBest(rs, a, port, j)
    ensures qs[i] == rs[j]
  {
    hide Contains, SameBlock;
    assert rs[j] in qs && qs[i] in rs;
    var k :| 0 <= k < |qs| && qs[k] == rs[j];
    var m :| 0 <= m < |rs| && rs[m] == qs[i];
    EqualLengthSameBlock(qs[i], qs[k], a, port);
    EqualLengthSameBlock(qs[k], qs[i], a, port);
  }

  // ---------------------------------------------------------------- implementation

  /** The loop over the reserved prefixes. */
  method CheckForbidden(a: Addr) returns (b: bool)
    ensures b == IsForbidden(a)
  {
    hide Contains, FORBIDDEN;
    ForbiddenValid();
    for i := 0 to |FORBIDDEN|
      invariant forall j :: 0 <= j < i ==> ValidPrefix(FORBIDDEN[j]) && !Contains(FORBIDDEN[j], a)
    {
      assert FORBIDDEN[i] in FORBIDDEN;
      if Contains(FORBIDDEN[i], a) {
        return true;
      }
    }
    b := false;
  }

  /** workload.target: one pass that remembers the longest match so far, then the two policy loops. */
  method FindTarget(w: Workload, a: Addr, port: nat) returns (r: Option<string>)
    requires ValidRoutes(w.routes)
    ensures r == Target(w, a, port) && Answers(w, a, port, r)
  {
    hide Contains, IsForbidden, Answers;
    TargetExactly(w, a, port, Target(w, a, port));
    var selected := "";
    var bits: int := -1;
    for i := 0 to |w.routes|
      invariant var b := Best(w.routes[..i], a, port);
        if b.None? then selected == "" && bits == -1
        else selected == w.routes[b.value].socket && bits == w.routes[b.value].prefix.bits
    {
      assert w.routes[..i + 1][..i] == w.routes[..i];
      var p := w.routes[i].prefix;
      if w.routes[i].port == port && Contains(p, a) && p.bits > bits {
        selected := w.routes[i].socket;
        bits := p.bits;
      }
    }
    assert w.routes[..|w.routes|] == w.routes;
    if selected != "" {
      return Some(selected);
    }
    var forbidden := CheckForbidden(a);
    if forbidden {
      return None;
    }
    for i := 0 to |w.internetPorts|
      invariant w.internetSocket == "" || port !in w.internetPorts[..i]
    {
      if w.internetPorts[i] == port && w.internetSocket != "" {
        return Some(w.internetSocket);
      }
    }
    assert w.internetPorts[..|w.internetPorts|] == w.internetPorts;
    r := None;
  }
}
