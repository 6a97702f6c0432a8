/** What each request does to every proof and every counter of the responder, in every run. */
module ResponderExactly {
  import opened Clock
  import opened Text
  import opened Wire
  import opened Responder
  import opened AttestationExactly

  lemma RunMore(fqdn: string, xs: seq<Action>, x: Action)
    ensures Run(fqdn, xs + [x]) == Apply(Run(fqdn, xs), x)
  {
    assert (xs + [x])[..|xs|] == xs;
  }

  /** A challenge for this FQDN that is valid now for at most the next 120 seconds. */
  ghost predicate Current(c: Challenge, fqdn: string, now: int)
  {
    && c.version == 1 && !c.id.Noise? && !c.nonce.Noise? && !c.keyThumbprint.Noise?
    && c.fqdn == fqdn && IsFqdn(fqdn) && IsFqdn(c.trustDomain)
    && c.serverId == "spiffe://" + c.trustDomain + "/spire/server"
    && now / 1_000_000_000 < c.expiresAt <= (now + 120_000_000_000) / 1_000_000_000
  }

  /** A document that proves possession of its own key by a signature of a current challenge issued to that key. */
  ghost predicate Acceptable(body: Document, fqdn: string, now: int, c: Challenge)
  {
    && body.ProofDoc? && body.proof.Compact? && body.proof.payload.ChallengeDoc? && Size(body.proof.payload) > 0
    && body.proof.payload.challenge == c && SignedBy(body, body.jwk, body.proof.payload)
    && c.keyThumbprint == Thumbprint(body.jwk) && Current(c, fqdn, now)
  }

  lemma ParsesExactly(body: Document, fqdn: string, now: int, c: Challenge)
    ensures ParseProof(body, fqdn, now) == Some(c) <==> Acceptable(body, fqdn, now, c)
  {
    hide Size, ValidFqdn, IsFqdn;
    FqdnExactly(c.fqdn);
    FqdnExactly(c.trustDomain);
    if body.ProofDoc? && body.proof.Compact? {
      VerifiesExactly(body, body.jwk, body.proof.payload);
    }
  }

  // ---------------------------------------------------------------- deleting and expiring

  /** DELETE takes away exactly the proof it names and counts it as deleted. Nothing else changes. */
  lemma DeleteExactly(fqdn: string, xs: seq<Action>, id: Token)
    ensures var s, t := Run(fqdn, xs), Run(fqdn, xs + [Delete(id)]);
      && id !in t.proofs && t.fqdn == s.fqdn
      && (forall other :: other != id ==>
            (other in t.proofs <==> other in s.proofs) && (other in s.proofs ==> t.proofs[other] == s.proofs[other]))
      && t.deleted == s.deleted + (if id in s.proofs then 1 else 0)
      && t.pending == s.pending - (if id in s.proofs then 1 else 0)
      && t.published == s.published && t.expired == s.expired && t.overwritten == s.overwritten
  {
    hide Run;
    RunMore(fqdn, xs, Delete(id));
  }

  /** A proof outlives the expiry exactly if its own reading of the clock lies before its last second. */
  predicate Outlives(s: Store, readings: map<Token, int>, now: int, id: Token)
  {
    && id in s.proofs
    && (if id in readings && readings[id] > now then readings[id] else now) < s.proofs[id].expiresAt * 1_000_000_000
  }

  lemma OutlivesExactly(s: Store, readings: map<Token, int>, now: int, id: Token)
    ensures Outlives(s, readings, now, id) <==> id in Expire(s, readings, now).proofs
    ensures id in Expire(s, readings, now).proofs ==> Expire(s, readings, now).proofs[id] == s.proofs[id]
  {
    if id in s.proofs {
      UnixLaws(Reading(readings, id, now), 0);
    }
  }

  /** GET takes away exactly the proofs that have expired and counts them as expired. Nothing else changes. */
  lemma GetExactly(fqdn: string, xs: seq<Action>, readings: map<Token, int>, now: int)
    ensures var s, t := Run(fqdn, xs), Run(fqdn, xs + [Get(readings, now)]);
      && t.fqdn == s.fqdn
      && (forall id :: id in t.proofs <==> Outlives(s, readings, now, id))
      && (forall id :: id in t.proofs ==> t.proofs[id] == s.proofs[id])
      && t.expired + |t.proofs| == s.expired + |s.proofs| && t.pending == |t.proofs|
      && t.published == s.published && t.deleted == s.deleted && t.overwritten == s.overwritten
  {
    hide Run, Expire, Outlives;
    var s, x := Run(fqdn, xs), Get(readings, now);
    RunMore(fqdn, xs, x);
    forall id ensures id in Apply(s, x).proofs <==> Outlives(s, readings, now, id)
      ensures id in Apply(s, x).proofs ==> id in s.proofs && Apply(s, x).proofs[id] == s.proofs[id]
    {
      OutlivesExactly(s, readings, now, id);
      OutlivesIsHeld(s, readings, now, id);
    }
    StoreInvariant(fqdn, xs);
    StoreInvariant(fqdn, xs + [x]);
    ExpireCounts(s, readings, now);
  }

  lemma OutlivesIsHeld(s: Store, readings: map<Token, int>, now: int, id: Token)
    ensures Outlives(s, readings, now, id) ==> id in s.proofs
  {
  }

  lemma ExpireCounts(s: Store, readings: map<Token, int>, now: int)
    ensures var t := Expire(s, readings, now);
      && t.expired + |t.proofs| == s.expired + |s.proofs| && t.fqdn == s.fqdn
      && t.published == s.published && t.deleted == s.deleted && t.overwritten == s.overwritten
  {
    RemoveSize(s.proofs, Stale(s, readings, now));
  }

  // ---------------------------------------------------------------- publishing

  /** Whether a PUT stores its proof: it is acceptable under its own ID, and after the expiry that comes first its ID is
      held or fewer than four proofs are. */
  ghost predicate Stores(s: Store, x: Action, c: Challenge)
  {
    && x.Put? && c.id == x.id && Acceptable(x.body, s.fqdn, x.validated, c)
    && (Outlives(s, x.readings, x.now, x.id) || |Remaining(s, x)| < 4)
  }

  ghost function Remaining(s: Store, x: Action): set<Token>
    requires x.Put?
  {
    set id | id in s.proofs && Outlives(s, x.readings, x.now, id)
  }

  /** In every run a PUT that stores puts exactly its own body and its challenge's expiry under its own ID, counts one
      publication, and counts an overwritten proof exactly if one was there. */
  lemma PutExactly(fqdn: string, xs: seq<Action>, x: Action, c: Challenge)
    requires x.Put? && Stores(Run(fqdn, xs), x, c)
    ensures var s, t := Run(fqdn, xs), Run(fqdn, xs + [x]);
      && x.id in t.proofs && t.proofs[x.id] == Stored(x.body, c.expiresAt)
      && t.proofs - {x.id} == (map id | id in Remaining(s, x) - {x.id} :: s.proofs[id])
      && t.published == s.published + 1 && t.deleted == s.deleted && t.pending == |t.proofs|
      && t.overwritten == s.overwritten + (if x.id in Remaining(s, x) then 1 else 0)
  {
    hide Run, Expire, Outlives, ParseProof, Acceptable, Genuine;
    var s := Run(fqdn, xs);
    RunMore(fqdn, xs, x);
    StoreInvariant(fqdn, xs + [x]);
    ParsesExactly(x.body, s.fqdn, x.validated, c);
    ExpireLeaves(s, x);
    ExpireCounts(s, x.readings, x.now);
  }

  lemma ExpireLeaves(s: Store, x: Action)
    requires x.Put?
    ensures var e := Expire(s, x.readings, x.now);
      && e.proofs.Keys == Remaining(s, x) && |e.proofs| == |Remaining(s, x)|
      && (x.id in e.proofs <==> Outlives(s, x.readings, x.now, x.id))
      && forall id :: id in e.proofs ==> id in s.proofs && e.proofs[id] == s.proofs[id]
  {
    hide Expire, Outlives;
    var e := Expire(s, x.readings, x.now);
    forall id ensures id in e.proofs <==> Outlives(s, x.readings, x.now, id)
      ensures id in e.proofs ==> id in s.proofs && e.proofs[id] == s.proofs[id]
    {
      OutlivesExactly(s, x.readings, x.now, id);
      OutlivesIsHeld(s, x.readings, x.now, id);
    }
    assert e.proofs.Keys == Remaining(s, x);
  }

  /** In every run any other PUT publishes nothing: one that is not acceptable under its ID changes nothing at all, and
      one for which there is no room only lets the expired proofs go. */
  lemma PutRefusedExactly(fqdn: string, xs: seq<Action>, x: Action)
    requires x.Put? && forall c :: !Stores(Run(fqdn, xs), x, c)
    ensures var s, t := Run(fqdn, xs), Run(fqdn, xs + [x]);
      && t.published == s.published && t.deleted == s.deleted && t.overwritten == s.overwritten
      && (if exists c: Challenge :: c.id == x.id && Acceptable(x.body, s.fqdn, x.validated, c)
          then t.proofs.Keys == Remaining(s, x) && forall id :: id in t.proofs ==> t.proofs[id] == s.proofs[id]
          else t == s)
  {
    hide Run, Expire, Outlives, ParseProof, Acceptable;
    var s := Run(fqdn, xs);
    RunMore(fqdn, xs, x);
    ExpireLeaves(s, x);
    ExpireCounts(s, x.readings, x.now);
    forall c
      ensures ParseProof(x.body, s.fqdn, x.validated) == Some(c) <==> Acceptable(x.body, s.fqdn, x.validated, c)
    {
      ParsesExactly(x.body, s.fqdn, x.validated, c);
    }
    var parsed := ParseProof(x.body, s.fqdn, x.validated);
    if parsed.Some? && parsed.value.id == x.id {
      assert !Stores(s, x, parsed.value);
    }
  }
}
