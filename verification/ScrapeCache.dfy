/** Samples cached by a collection and judged again at scrape time. */
module ScrapeCache {
  import opened Clock
  import opened Text

  const MAX_CERTIFICATES: nat := 64

  // ---------------------------------------------------------------- the bundle

  /** Validity is in whole seconds, as X.509 writes it. */
  datatype Cert = Cert(fingerprint: string, notBefore: int, notAfter: int)

  predicate CertCurrent(c: Cert, now: int) { c.notBefore * SECOND <= now && now < c.notAfter * SECOND }

  /** A decoded block of the bundle file, or one that is not a certificate authority. */
  datatype Block = Authority(cert: Cert) | Rejected

  ghost predicate DistinctCerts(cs: seq<Cert>)
  {
    forall i, j :: 0 <= i < j < |cs| ==> cs[i].fingerprint != cs[j].fingerprint
  }

  function Fingerprints(cs: seq<Cert>): set<string> { set c | c in cs :: c.fingerprint }

  /** The authorities in order of first appearance. */
  function FirstSeen(blocks: seq<Block>): seq<Cert>
  {
    if |blocks| == 0 then []
    else
      var seen, last := FirstSeen(blocks[..|blocks| - 1]), blocks[|blocks| - 1];
      if last.Rejected? || last.cert.fingerprint in Fingerprints(seen) then seen else seen + [last.cert]
  }

  lemma {:induction false} FirstSeenCovers(blocks: seq<Block>)
    ensures DistinctCerts(FirstSeen(blocks))
    ensures forall f :: f in Fingerprints(FirstSeen(blocks)) <==>
      exists i :: 0 <= i < |blocks| && blocks[i].Authority? && blocks[i].cert.fingerprint == f
  {
    if |blocks| > 0 {
      var n := |blocks| - 1;
      FirstSeenCovers(blocks[..n]);
      var seen, all := FirstSeen(blocks[..n]), FirstSeen(blocks);
      assert forall f :: f in Fingerprints(all) <==>
        f in Fingerprints(seen) || (blocks[n].Authority? && blocks[n].cert.fingerprint == f);
      assert forall c :: c in seen ==> c.fingerprint in Fingerprints(seen);
      assert forall i :: 0 <= i < n ==> blocks[i] == blocks[..n][i];
    }
  }

  /** Positions in ascending order. */
  ghost predicate Rising(at: seq<nat>) { forall i, j :: 0 <= i < j < |at| ==> at[i] < at[j] }

  ghost predicate NewAt(blocks: seq<Block>, i: nat)
  {
    && i < |blocks| && blocks[i].Authority?
    && forall j :: 0 <= j < i && blocks[j].Authority? ==> blocks[j].cert.fingerprint != blocks[i].cert.fingerprint
  }

  /** at holds, in file order, the positions of the blocks whose fingerprint is new there, and cs their certificates. */
  ghost predicate InFileOrder(at: seq<nat>, blocks: seq<Block>, cs: seq<Cert>)
  {
    && |at| == |cs| && Rising(at) && (forall i: nat :: i in at <==> NewAt(blocks, i))
    && forall k :: 0 <= k < |at| ==> at[k] < |blocks| && blocks[at[k]] == Authority(cs[k])
  }

  lemma OneMoreBlock(at: seq<nat>, blocks: seq<Block>, b: Block, cs: seq<Cert>)
    requires InFileOrder(at, blocks, cs)
    ensures !NewAt(blocks + [b], |blocks|) ==> InFileOrder(at, blocks + [b], cs)
    ensures b.Authority? && NewAt(blocks + [b], |blocks|) ==>
      InFileOrder(at + [|blocks|], blocks + [b], cs + [b.cert])
  {
    hide NewAt;
    var more, n := blocks + [b], |blocks|;
    NewWithin(more);
    assert more[..n] == blocks && more[n] == b && forall j :: 0 <= j < n ==> more[j] == blocks[j];
    forall i: nat | i < n ensures NewAt(more, i) <==> NewAt(blocks, i) {
      NewPrefix(more, n, i);
    }
  }

  /** The kept certificates are those of the blocks whose fingerprint appears for the first time, in file order. */
  lemma {:induction false} FirstSeenExactly(blocks: seq<Block>) returns (at: seq<nat>)
    ensures InFileOrder(at, blocks, FirstSeen(blocks))
  {
    hide NewAt, Fingerprints;
    if |blocks| == 0 {
      at := [];
      NewWithin(blocks);
    } else {
      hide InFileOrder;
      var n := |blocks| - 1;
      assert blocks == blocks[..n] + [blocks[n]];
      at := FirstSeenExactly(blocks[..n]);
      OneMoreBlock(at, blocks[..n], blocks[n], FirstSeen(blocks[..n]));
      NewLast(blocks);
      if NewAt(blocks, n) {
        at := at + [n];
      }
    }
  }

  lemma NewWithin(blocks: seq<Block>)
    ensures forall i: nat :: NewAt(blocks, i) ==> i < |blocks|
  {
  }

  lemma NewPrefix(blocks: seq<Block>, n: nat, i: nat)
    requires i < n <= |blocks|
    ensures NewAt(blocks, i) <==> NewAt(blocks[..n], i)
  {
    assert forall j :: 0 <= j <= i ==> blocks[..n][j] == blocks[j];
  }

  lemma NewLast(blocks: seq<Block>)
    requires |blocks| > 0
    ensures var n := |blocks| - 1;
      NewAt(blocks, n) <==>
      blocks[n].Authority? && blocks[n].cert.fingerprint !in Fingerprints(FirstSeen(blocks[..n]))
  {
    hide FirstSeen, Fingerprints, DistinctCerts;
    var n := |blocks| - 1;
    FirstSeenCovers(blocks[..n]);
    assert forall j :: 0 <= j < n ==> blocks[..n][j] == blocks[j];
  }

  lemma NothingSeen(blocks: seq<Block>)
    ensures FirstSeen(blocks[..0]) == []
  {
  }

  lemma FirstSeenStep(blocks: seq<Block>, k: nat)
    requires k < |blocks|
    ensures var seen := FirstSeen(blocks[..k]);
      FirstSeen(blocks[..k + 1]) ==
      if blocks[k].Rejected? || blocks[k].cert.fingerprint in Fingerprints(seen) then seen else seen + [blocks[k].cert]
  {
    assert blocks[..k + 1][..k] == blocks[..k];
  }

  lemma {:induction false} FirstSeenGrows(blocks: seq<Block>, k: nat)
    requires k <= |blocks|
    ensures |FirstSeen(blocks[..k])| <= |FirstSeen(blocks)|
  {
    if k < |blocks| {
      assert blocks[..|blocks| - 1][..k] == blocks[..k];
      FirstSeenGrows(blocks[..|blocks| - 1], k);
    } else {
      assert blocks[..k] == blocks;
    }
  }

  /** loadBundle's loop over decoded blocks: it accepts exactly the bundles of authorities with one to sixty-four
      distinct certificates, and drops repeats. */
  method LoadBundle(blocks: seq<Block>) returns (r: Option<seq<Cert>>)
    ensures r.Some? <==>
      (forall b :: b in blocks ==> b.Authority?) && 1 <= |FirstSeen(blocks)| <= 64
    ensures r.Some? ==> r.value == FirstSeen(blocks) && DistinctCerts(r.value)
  {
    hide FirstSeen, DistinctCerts;
    var certs: seq<Cert>, seen: set<string> := [], {};
    FirstSeenCovers(blocks);
    NothingSeen(blocks);
    for k := 0 to |blocks|
      invariant certs == FirstSeen(blocks[..k]) && seen == Fingerprints(certs) && |certs| <= MAX_CERTIFICATES
      invariant forall b :: b in blocks[..k] ==> b.Authority?
    {
      var b := blocks[k];
      FirstSeenStep(blocks, k);
      assert b in blocks;
      if b.Rejected? {
        return None;
      }
      if b.cert.fingerprint !in seen {
        assert Fingerprints(certs + [b.cert]) == Fingerprints(certs) + {b.cert.fingerprint};
        certs := certs + [b.cert];
        seen := seen + {b.cert.fingerprint};
      }
      if |certs| > MAX_CERTIFICATES {
        FirstSeenGrows(blocks, k + 1);
        return None;
      }
    }
    assert blocks[..|blocks|] == blocks;
    if |certs| == 0 {
      return None;
    }
    r := Some(certs);
  }

  // ---------------------------------------------------------------- samples

  datatype Name =
    | IdentityNotAfter | BundleNotBefore | BundleNotAfter | BundleCount | BundleActive
    | AgentValid | AliasMatches | Other

  datatype Sample = Sample(name: Name, node: string, certificate: string, value: int)

  function CountCurrent(cs: seq<Cert>, now: int): nat
  {
    if |cs| == 0 then 0
    else CountCurrent(cs[..|cs| - 1], now) + (if CertCurrent(cs[|cs| - 1], now) then 1 else 0)
  }

  function CertSamples(cs: seq<Cert>, node: string): seq<Sample>
  {
    if |cs| == 0 then []
    else
      var c := cs[|cs| - 1];
      CertSamples(cs[..|cs| - 1], node) +
      [Sample(BundleNotAfter, node, c.fingerprint, c.notAfter),
        Sample(BundleNotBefore, node, c.fingerprint, c.notBefore)]
  }

  function BundleSamples(cs: seq<Cert>, node: string, now: int): seq<Sample>
  {
    CertSamples(cs, node) + [Sample(BundleCount, node, "", |cs|), Sample(BundleActive, node, "", CountCurrent(cs, now))]
  }

  /** collectBootstrap's loop. */
  method CollectBundle(cs: seq<Cert>, node: string, now: int) returns (samples: seq<Sample>)
    ensures samples == BundleSamples(cs, node, now)
  {
    samples := [];
    var active := 0;
    for k := 0 to |cs|
      invariant samples == CertSamples(cs[..k], node) && active == CountCurrent(cs[..k], now)
    {
      var cert := cs[k];
      assert cs[..k + 1][..k] == cs[..k];
      if cert.notBefore * SECOND <= now && now < cert.notAfter * SECOND {
        active := active + 1;
      }
      samples := samples +
      [Sample(BundleNotAfter, node, cert.fingerprint, cert.notAfter),
        Sample(BundleNotBefore, node, cert.fingerprint, cert.notBefore)];
    }
    assert cs[..|cs|] == cs;
    samples := samples + [Sample(BundleCount, node, "", |cs|), Sample(BundleActive, node, "", active)];
  }

  /** The certificates that are valid at a time. */
  ghost function ValidAt(cs: seq<Cert>, now: int): set<int>
  {
    set k | 0 <= k < |cs| && cs[k].notBefore * 1_000_000_000 <= now < cs[k].notAfter * 1_000_000_000
  }

  lemma {:induction false} CountIsValid(cs: seq<Cert>, now: int)
    ensures CountCurrent(cs, now) == |ValidAt(cs, now)|
  {
    if |cs| > 0 {
      var n := |cs| - 1;
      CountIsValid(cs[..n], now);
      assert ValidAt(cs, now) == ValidAt(cs[..n], now) + if CertCurrent(cs[n], now) then {n} else {};
    }
  }

  lemma {:induction false} TwoSamplesEach(cs: seq<Cert>, node: string)
    ensures var ms := CertSamples(cs, node);
      && |ms| == 2 * |cs|
      && forall k :: 0 <= k < |cs| ==>
           && ms[2 * k] == Sample(BundleNotAfter, node, cs[k].fingerprint, cs[k].notAfter)
           && ms[2 * k + 1] == Sample(BundleNotBefore, node, cs[k].fingerprint, cs[k].notBefore)
  {
    if |cs| > 0 {
      TwoSamplesEach(cs[..|cs| - 1], node);
    }
  }

  /** A bundle's samples: both ends of each certificate's validity under its fingerprint, in order, then how many
      certificates there are and how many of them are valid. */
  lemma BundleExactly(cs: seq<Cert>, node: string, now: int)
    ensures var ms, n := BundleSamples(cs, node, now), |cs|;
      && |ms| == 2 * n + 2
      && (forall k :: 0 <= k < n ==>
            && ms[2 * k] == Sample(BundleNotAfter, node, cs[k].fingerprint, cs[k].notAfter)
            && ms[2 * k + 1] == Sample(BundleNotBefore, node, cs[k].fingerprint, cs[k].notBefore))
      && ms[2 * n] == Sample(BundleCount, node, "", n)
      && ms[2 * n + 1] == Sample(BundleActive, node, "", |ValidAt(cs, now)|)
  {
    TwoSamplesEach(cs, node);
    CountIsValid(cs, now);
  }

  // ---------------------------------------------------------------- currentSamples

  datatype Cache = Cache(samples: seq<Sample>, completed: int, validUntil: int)

  predicate Fresh(s: Cache, now: int) { s.completed != 0 && now - s.completed <= FRESHNESS_LIMIT }

  /** Values by certificate of the samples with a name; a later sample wins. */
  function ByCertificate(ms: seq<Sample>, name: Name): map<string, int>
  {
    if |ms| == 0 then map[]
    else
      var rest, m := ByCertificate(ms[..|ms| - 1], name), ms[|ms| - 1];
      if m.name == name then rest[m.certificate := m.value] else rest
  }

  ghost predicate Expired(ms: seq<Sample>, node: string, now: int)
  {
    exists i :: 0 <= i < |ms| && ms[i].name.IdentityNotAfter? && ms[i].node == node && ms[i].value <= Unix(now)
  }

  function Read(m: map<string, int>, k: string): int { if k in m then m[k] else 0 }

  function ActiveNow(before: map<string, int>, after: map<string, int>, now: int): set<string>
  {
    set f | f in after && Read(before, f) <= Unix(now) && after[f] > Unix(now)
  }

  ghost function Rejudged(s: Cache, m: Sample, now: int): Sample
  {
    if m.name.AgentValid? && Expired(s.samples, m.node, now) then m.(value := 0)
    else if m.name.AliasMatches? && s.validUntil != 0 && !(now < s.validUntil) then m.(value := 0)
    else if m.name.BundleActive? then
      m.(value := |ActiveNow(ByCertificate(s.samples, BundleNotBefore), ByCertificate(s.samples, BundleNotAfter), now)|)
    else m
  }

  /** The samples that survive staleness, turned into failure indicators. */
  function Indicators(ms: seq<Sample>): seq<Sample>
  {
    if |ms| == 0 then []
    else
      var rest, m := Indicators(ms[..|ms| - 1]), ms[|ms| - 1];
      if m.name.AgentValid? || m.name.AliasMatches? then rest + [m.(value := 0)] else rest
  }

  ghost function Current(s: Cache, now: int): seq<Sample>
  {
    if Fresh(s, now) then seq(|s.samples|, i requires 0 <= i < |s.samples| => Rejudged(s, s.samples[i], now))
    else Indicators(s.samples)
  }

  /** The inner loop that counts the certificates in force. */
  method CountActive(before: map<string, int>, after: map<string, int>, now: int) returns (n: nat)
    ensures n == |ActiveNow(before, after, now)|
  {
    hide ActiveNow, Unix, Read;
    n := 0;
    var left := after.Keys;
    ghost var all, done := ActiveNow(before, after, now), {};
    while left != {}
      invariant done + left == after.Keys && done !! left && n == |all * done|
      decreases |left|
    {
      var f :| f in left;
      InForce(before, after, now, f);
      CountOne(all, done, f);
      if Read(before, f) <= Unix(now) && after[f] > Unix(now) {
        n := n + 1;
      }
      done := done + {f};
      left := left - {f};
    }
    OnlyKeys(before, after, now);
    assert all * done == all;
  }

  lemma InForce(before: map<string, int>, after: map<string, int>, now: int, f: string)
    requires f in after
    ensures f in ActiveNow(before, after, now) <==> Read(before, f) <= Unix(now) && after[f] > Unix(now)
  {
  }

  lemma OnlyKeys(before: map<string, int>, after: map<string, int>, now: int)
    ensures ActiveNow(before, after, now) <= after.Keys
  {
  }

  lemma CountOne(all: set<string>, done: set<string>, f: string)
    requires f !in done
    ensures |all * (done + {f})| == |all * done| + if f in all then 1 else 0
  {
    assert all * (done + {f}) == if f in all then all * done + {f} else all * done;
  }

  /** currentSamples: one pass that indexes the cached samples and one that rewrites them. */
  method CurrentSamples(s: Cache, now: int) returns (result: seq<Sample>)
    ensures result == Current(s, now)
  {
    if Fresh(s, now) {
      result := s.samples;
      var expired: set<string>, before: map<string, int>, after: map<string, int> := {}, map[], map[];
      for k := 0 to |result|
        invariant forall n :: n in expired <==> Expired(result[..k], n, now)
        invariant before == ByCertificate(result[..k], BundleNotBefore)
          && after == ByCertificate(result[..k], BundleNotAfter)
      {
        var m := result[k];
        assert result[..k + 1][..k] == result[..k];
        ExpiredStep(result[..k], m, now);
        assert result[..k + 1] == result[..k] + [m];
        if m.name.IdentityNotAfter? && m.value <= Unix(now) {
          expired := expired + {m.node};
        }
        if m.name.BundleNotBefore? {
          before := before[m.certificate := m.value];
        }
        if m.name.BundleNotAfter? {
          after := after[m.certificate := m.value];
        }
      }
      assert s.samples[..|s.samples|] == s.samples;
      for k := 0 to |result|
        invariant |result| == |s.samples|
        invariant forall i :: 0 <= i < k ==> result[i] == Rejudged(s, s.samples[i], now)
        invariant forall i :: k <= i < |result| ==> result[i] == s.samples[i]
      {
        var m := result[k];
        if m.name.AgentValid? && m.node in expired {
          result := result[k := m.(value := 0)];
        }
        if m.name.AliasMatches? && s.validUntil != 0 && !(now < s.validUntil) {
          result := result[k := m.(value := 0)];
        }
        if m.name.BundleActive? {
          var n := CountActive(before, after, now);
          result := result[k := m.(value := n)];
        }
      }
    } else {
      result := [];
      for k := 0 to |s.samples|
        invariant result == Indicators(s.samples[..k])
      {
        var m := s.samples[k];
        assert s.samples[..k + 1][..k] == s.samples[..k];
        if m.name.AgentValid? || m.name.AliasMatches? {
          result := result + [m.(value := 0)];
        }
      }
      assert s.samples[..|s.samples|] == s.samples;
    }
  }

  lemma ExpiredStep(ms: seq<Sample>, m: Sample, now: int)
    ensures forall n :: Expired(ms + [m], n, now) <==>
      Expired(ms, n, now) || (m.name.IdentityNotAfter? && m.node == n && m.value <= Unix(now))
  {
    var more := ms + [m];
    assert more[|ms|] == m;
    forall n | Expired(ms, n, now) ensures Expired(more, n, now) {
      var i :| 0 <= i < |ms| && ms[i].name.IdentityNotAfter? && ms[i].node == n && ms[i].value <= Unix(now);
      assert more[i] == ms[i];
    }
  }

  // ---------------------------------------------------------------- the cache agrees with a direct count

  /** The two maps hold exactly the validity of each certificate. */
  ghost predicate Indexed(before: map<string, int>, after: map<string, int>, cs: seq<Cert>)
  {
    && before.Keys == after.Keys == Fingerprints(cs)
    && forall c :: c in cs ==> before[c.fingerprint] == c.notBefore && after[c.fingerprint] == c.notAfter
  }

  lemma IndexOne(before: map<string, int>, after: map<string, int>, front: seq<Cert>, c: Cert)
    requires Indexed(before, after, front) && c.fingerprint !in Fingerprints(front)
    ensures Indexed(before[c.fingerprint := c.notBefore], after[c.fingerprint := c.notAfter], front + [c])
  {
    assert Fingerprints(front + [c]) == Fingerprints(front) + {c.fingerprint};
    assert forall d :: d in front ==> d.fingerprint in Fingerprints(front);
  }

  lemma {:induction false} CertMaps(cs: seq<Cert>, node: string)
    requires DistinctCerts(cs)
    ensures var ms := CertSamples(cs, node);
      Indexed(ByCertificate(ms, BundleNotBefore), ByCertificate(ms, BundleNotAfter), cs)
  {
    hide ByCertificate, Indexed;
    if |cs| == 0 {
      NoSamples();
    } else {
      var n := |cs| - 1;
      var front, c := cs[..n], cs[n];
      CertMaps(front, node);
      LastTwo(CertSamples(front, node), c, node);
      var ms := CertSamples(front, node);
      IndexOne(ByCertificate(ms, BundleNotBefore), ByCertificate(ms, BundleNotAfter), front, c);
      assert cs == front + [c];
    }
  }

  lemma NoSamples()
    ensures Indexed(ByCertificate([], BundleNotBefore), ByCertificate([], BundleNotAfter), [])
  {
  }

  lemma LastTwo(ms: seq<Sample>, c: Cert, node: string)
    ensures var more := ms
      + [Sample(BundleNotAfter, node, c.fingerprint, c.notAfter),
        Sample(BundleNotBefore, node, c.fingerprint, c.notBefore)];
      && ByCertificate(more, BundleNotBefore) == ByCertificate(ms, BundleNotBefore)[c.fingerprint := c.notBefore]
      && ByCertificate(more, BundleNotAfter) == ByCertificate(ms, BundleNotAfter)[c.fingerprint := c.notAfter]
  {
    var a, b := Sample(BundleNotAfter, node, c.fingerprint, c.notAfter),
      Sample(BundleNotBefore, node, c.fingerprint, c.notBefore);
    assert (ms + [a, b])[..|ms| + 1] == ms + [a];
    assert (ms + [a])[..|ms|] == ms;
  }

  lemma BundleMaps(cs: seq<Cert>, node: string, now: int, name: Name)
    requires name.BundleNotBefore? || name.BundleNotAfter?
    ensures ByCertificate(BundleSamples(cs, node, now), name) == ByCertificate(CertSamples(cs, node), name)
  {
    var ms, all := CertSamples(cs, node), BundleSamples(cs, node, now);
    assert all[..|all| - 1][..|ms|] == ms;
    assert all[|all| - 1].name.BundleActive? && all[..|all| - 1][|ms|].name.BundleCount?;
  }

  lemma WholeSeconds(c: Cert, now: int)
    ensures CertCurrent(c, now) <==> c.notBefore <= Unix(now) && c.notAfter > Unix(now)
  {
  }

  /** The certificates in force, counted by fingerprint, are as many as those certCurrent accepts one by one. */
  lemma {:induction false} CountByFingerprint(cs: seq<Cert>, now: int, s: set<string>)
    requires DistinctCerts(cs)
    requires s == set c | c in cs && c.notBefore <= Unix(now) && c.notAfter > Unix(now) :: c.fingerprint
    ensures |s| == CountCurrent(cs, now)
  {
    hide CertCurrent, Unix;
    if |cs| > 0 {
      var n := |cs| - 1;
      var front, c := cs[..n], cs[n];
      var t := set d | d in front && d.notBefore <= Unix(now) && d.notAfter > Unix(now) :: d.fingerprint;
      CountByFingerprint(front, now, t);
      WholeSeconds(c, now);
      assert cs == front + [c];
      assert c.fingerprint !in t;
      if CertCurrent(c, now) {
        assert s == t + {c.fingerprint};
      } else {
        assert s == t;
      }
    }
  }

  /** For every loaded bundle and every fresh scrape, the rebuilt count is the number of distinct certificates
      that certCurrent accepts at the time of the scrape, not of the collection; nothing else changes. */
  lemma ScrapeCountsCurrent(cs: seq<Cert>, node: string, collected: int, s: Cache, now: int)
    requires DistinctCerts(cs) && s.samples == BundleSamples(cs, node, collected) && Fresh(s, now)
    ensures Current(s, now) == BundleSamples(cs, node, now)
  {
    hide CertSamples, CountCurrent, ByCertificate, DistinctCerts;
    BundleMaps(cs, node, collected, BundleNotBefore);
    BundleMaps(cs, node, collected, BundleNotAfter);
    ActiveIsCurrent(cs, node, now);
    CertsKeepValue(cs, node);
    var old', all := BundleSamples(cs, node, collected), BundleSamples(cs, node, now);
    var k := |CertSamples(cs, node)|;
    forall i | 0 <= i < |all| ensures Rejudged(s, old'[i], now) == all[i] {
      if i < k {
        assert old'[i] == CertSamples(cs, node)[i] == all[i];
      }
    }
  }

  lemma {:induction false} CertsKeepValue(cs: seq<Cert>, node: string)
    ensures forall m :: m in CertSamples(cs, node) ==> m.name.BundleNotBefore? || m.name.BundleNotAfter?
  {
    if |cs| > 0 {
      CertsKeepValue(cs[..|cs| - 1], node);
    }
  }

  lemma ActiveIsCurrent(cs: seq<Cert>, node: string, now: int)
    requires DistinctCerts(cs)
    ensures var ms := CertSamples(cs, node);
      |ActiveNow(ByCertificate(ms, BundleNotBefore), ByCertificate(ms, BundleNotAfter), now)| == CountCurrent(cs, now)
  {
    hide CertSamples, ByCertificate, CountCurrent;
    CertMaps(cs, node);
    var ms := CertSamples(cs, node);
    var before, after := ByCertificate(ms, BundleNotBefore), ByCertificate(ms, BundleNotAfter);
    var s := set c | c in cs && c.notBefore <= Unix(now) && c.notAfter > Unix(now) :: c.fingerprint;
    CountByFingerprint(cs, now, s);
    assert ActiveNow(before, after, now) == s;
  }

  /** A stale bundle collection is not reported at all. */
  lemma {:induction false} StaleBundleIsSilent(ms: seq<Sample>)
    requires forall m :: m in ms ==> !m.name.AgentValid? && !m.name.AliasMatches?
    ensures Indicators(ms) == []
  {
    if |ms| > 0 {
      assert ms[|ms| - 1] in ms;
      StaleBundleIsSilent(ms[..|ms| - 1]);
    }
  }

  // ---------------------------------------------------------------- what a scrape shows

  /** The node's identity has expired, by the end of validity that the collection noted for it. */
  ghost predicate IdentityOver(ms: seq<Sample>, node: string, now: int)
  {
    exists m :: m in ms && m.name.IdentityNotAfter? && m.node == node && m.value * 1_000_000_000 <= now
  }

  lemma OverExactly(ms: seq<Sample>, node: string, now: int)
    ensures Expired(ms, node, now) <==> IdentityOver(ms, node, now)
  {
    if i :| 0 <= i < |ms| && ms[i].name.IdentityNotAfter? && ms[i].node == node && ms[i].value <= Unix(now) {
      assert ms[i] in ms;
    }
    if m :| m in ms && m.name.IdentityNotAfter? && m.node == node && m.value * 1_000_000_000 <= now {
      var i :| 0 <= i < |ms| && ms[i] == m;
      assert ms[i].value <= Unix(now);
    }
  }

  /** A scrape within 65 seconds of the collection shows every sample in its place. It says that an agent is invalid
      exactly if the collection did or the node's identity has expired since, and that an alias does not match exactly
      if the collection did or its time is up. Only the count of certificates in force is also made anew. */
  lemma FreshExactly(s: Cache, now: int, i: nat)
    requires s.completed != 0 && now - s.completed <= 65_000_000_000 && i < |s.samples|
    ensures var shown, m := Current(s, now), s.samples[i];
      && |shown| == |s.samples|
      && shown[i].name == m.name && shown[i].node == m.node && shown[i].certificate == m.certificate
      && match m.name
         case AgentValid => shown[i].value == if IdentityOver(s.samples, m.node, now) then 0 else m.value
         case AliasMatches => shown[i].value == if s.validUntil != 0 && s.validUntil <= now then 0 else m.value
         case BundleActive => shown[i].value >= 0
         case _ => shown[i].value == m.value
  {
    hide ByCertificate, Expired, ActiveNow;
    OverExactly(s.samples, s.samples[i].node, now);
  }

  predicate Indicates(m: Sample) { m.name.AgentValid? || m.name.AliasMatches? }

  lemma {:induction false} IndicatorsExactly(ms: seq<Sample>) returns (at: seq<nat>)
    ensures |at| == |Indicators(ms)| && Rising(at) && forall i :: i in at <==> 0 <= i < |ms| && Indicates(ms[i])
    ensures forall k :: 0 <= k < |at| ==> at[k] < |ms| && Indicators(ms)[k] == ms[at[k]].(value := 0)
  {
    if |ms| == 0 {
      at := [];
    } else {
      var n := |ms| - 1;
      at := IndicatorsExactly(ms[..n]);
      assert forall i :: 0 <= i < n ==> ms[..n][i] == ms[i];
      assert forall k :: 0 <= k < |at| ==> at[k] < n;
      if Indicates(ms[n]) {
        at := at + [n];
      }
    }
  }

  /** A scrape without a collection, or more than 65 seconds after it, shows exactly the agent and alias samples, in
      order, each as zero. */
  lemma StaleExactly(s: Cache, now: int) returns (at: seq<nat>)
    requires s.completed == 0 || now - s.completed > 65_000_000_000
    ensures |at| == |Current(s, now)| && Rising(at)
    ensures forall i :: i in at <==> 0 <= i < |s.samples| && Indicates(s.samples[i])
    ensures forall k :: 0 <= k < |at| ==>
      at[k] < |s.samples| && Current(s, now)[k] == s.samples[at[k]].(value := 0)
  {
    at := IndicatorsExactly(s.samples);
  }
}
