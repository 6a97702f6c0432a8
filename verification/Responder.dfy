/** The responder's proof store: PUT, DELETE, GET and expiry. */
module Responder {
  import opened Clock
  import opened Text
  import opened Wire

  const PROOF_CAPACITY: nat := 4

  datatype Stored = Stored(body: Document, expiresAt: int)

  /** Proofs held, the pending gauge, the lifecycle counters, and how many PUTs replaced a held proof. */
  datatype Store = Store(
    fqdn: string, proofs: map<Token, Stored>, pending: int,
    published: nat, deleted: nat, expired: nat, overwritten: nat)

  function Empty(fqdn: string): Store { Store(fqdn, map[], 0, 0, 0, 0, 0) }

  // ---------------------------------------------------------------- steps

  /** expireLocked reads the clock again for every proof; each reading is at least the time of the lock. */
  function Reading(readings: map<Token, int>, id: Token, now: int): (t: int)
    ensures t >= now
  {
    if id in readings && readings[id] > now then readings[id] else now
  }

  function Stale(s: Store, readings: map<Token, int>, now: int): set<Token>
  {
    set id | id in s.proofs && s.proofs[id].expiresAt <= Unix(Reading(readings, id, now))
  }

  function Expire(s: Store, readings: map<Token, int>, now: int): Store
  {
    var gone := Stale(s, readings, now);
    s.(proofs := s.proofs - gone, pending := s.pending - |gone|, expired := s.expired + |gone|)
  }

  function Insert(s: Store, id: Token, entry: Stored): Store
  {
    if id in s.proofs then
      s.(proofs := s.proofs[id := entry], published := s.published + 1, overwritten := s.overwritten + 1)
    else if |s.proofs| < PROOF_CAPACITY then
      s.(proofs := s.proofs[id := entry], published := s.published + 1, pending := s.pending + 1)
    else s
  }

  datatype Action =
    | Put(id: Token, body: Document, validated: int, readings: map<Token, int>, now: int)
    | Delete(id: Token)
    | Get(readings: map<Token, int>, now: int)

  /** A PUT validates at one time and inserts under the lock at a later one. */
  function Apply(s: Store, x: Action): Store
  {
    match x
    case Put(id, body, validated, readings, now) =>
      var c := ParseProof(body, s.fqdn, validated);
      if c.None? || c.value.id != id then s
      else Insert(Expire(s, readings, now), id, Stored(body, c.value.expiresAt))
    case Delete(id) =>
      if id in s.proofs then
        s.(proofs := s.proofs - {id}, pending := s.pending - 1, deleted := s.deleted + 1)
      else s
    case Get(readings, now) => Expire(s, readings, now)
  }

  function Run(fqdn: string, xs: seq<Action>): Store
  {
    if |xs| == 0 then Empty(fqdn) else Apply(Run(fqdn, xs[..|xs| - 1]), xs[|xs| - 1])
  }

  // ---------------------------------------------------------------- invariants

  /** The body proves, to anyone, that its signer answered a challenge with this ID for this FQDN,
      and the entry expires with that challenge. */
  ghost predicate Genuine(fqdn: string, id: Token, entry: Stored)
  {
    && entry.body.ProofDoc?
    && VerifyProof(entry.body, entry.body.jwk).Some?
    && var payload := VerifyProof(entry.body, entry.body.jwk).value;
       && DecodeChallenge(payload).Some?
       && var c := DecodeChallenge(payload).value;
          && c.id == id && c.fqdn == fqdn && c.expiresAt == entry.expiresAt
          && c.keyThumbprint == Thumbprint(entry.body.jwk)
  }

  ghost predicate Inv(s: Store)
  {
    && |s.proofs| <= PROOF_CAPACITY && s.pending == |s.proofs|
    && s.published == |s.proofs| + s.deleted + s.expired + s.overwritten
    && forall id :: id in s.proofs ==> Genuine(s.fqdn, id, s.proofs[id])
  }

  lemma RemoveSize(m: map<Token, Stored>, gone: set<Token>)
    requires gone <= m.Keys
    ensures |m - gone| == |m| - |gone|
  {
    assert (m - gone).Keys == m.Keys - gone;
    assert m.Keys == (m.Keys - gone) + gone;
  }

  lemma ExpireKeeps(s: Store, readings: map<Token, int>, now: int)
    requires Inv(s)
    ensures Inv(Expire(s, readings, now))
  {
    hide Genuine;
    RemoveSize(s.proofs, Stale(s, readings, now));
  }

  lemma ParsedIsGenuine(body: Document, fqdn: string, validated: int)
    requires ParseProof(body, fqdn, validated).Some?
    ensures var c := ParseProof(body, fqdn, validated).value; Genuine(fqdn, c.id, Stored(body, c.expiresAt))
  {
  }

  lemma InsertKeeps(s: Store, id: Token, entry: Stored)
    requires Inv(s) && Genuine(s.fqdn, id, entry)
    ensures Inv(Insert(s, id, entry)) && Insert(s, id, entry).fqdn == s.fqdn
  {
    hide Genuine;
    var more := s.proofs[id := entry];
    if id in s.proofs {
      assert more.Keys == s.proofs.Keys;
    } else {
      assert more.Keys == s.proofs.Keys + {id};
    }
  }

  lemma InvKept(s: Store, x: Action)
    requires Inv(s)
    ensures Inv(Apply(s, x)) && Apply(s, x).fqdn == s.fqdn
  {
    hide Genuine, ParseProof, Insert;
    match x {
      case Put(id, body, validated, readings, now) =>
        var c := ParseProof(body, s.fqdn, validated);
        if c.Some? && c.value.id == id {
          ParsedIsGenuine(body, s.fqdn, validated);
          ExpireKeeps(s, readings, now);
          InsertKeeps(Expire(s, readings, now), id, Stored(body, c.value.expiresAt));
        }
      case Delete(id) =>
        if id in s.proofs {
          RemoveSize(s.proofs, {id});
        }
      case Get(readings, now) => ExpireKeeps(s, readings, now);
    }
  }

  /** In every reachable state: at most four proofs, the gauge is their number, every published proof
      is held, deleted, expired or overwritten, and every stored body verifies for its ID and FQDN. */
  lemma {:induction false} StoreInvariant(fqdn: string, xs: seq<Action>)
    ensures Inv(Run(fqdn, xs)) && Run(fqdn, xs).fqdn == fqdn
  {
    if |xs| > 0 {
      StoreInvariant(fqdn, xs[..|xs| - 1]);
      InvKept(Run(fqdn, xs[..|xs| - 1]), xs[|xs| - 1]);
    }
  }

  /** What a GET at now can find: never a proof that has expired, even one that was inserted after it
      had already expired. */
  lemma GetServesFresh(s: Store, readings: map<Token, int>, now: int, id: Token)
    requires id in Expire(s, readings, now).proofs
    ensures now < s.proofs[id].expiresAt * SECOND
  {
    UnixLaws(Reading(readings, id, now), 0);
  }

  /** A proof that expires between its validation and its insertion is stored, but no GET from then
      on finds it. */
  lemma StaleIsStoredNotServed(s: Store, x: Action, readings: map<Token, int>, later: int)
    requires x.Put? && ParseProof(x.body, s.fqdn, x.validated).Some?
      && ParseProof(x.body, s.fqdn, x.validated).value.id == x.id
    requires ParseProof(x.body, s.fqdn, x.validated).value.expiresAt <= Unix(x.now) && x.now <= later
    requires |Expire(s, x.readings, x.now).proofs| < PROOF_CAPACITY
    ensures x.id in Apply(s, x).proofs && x.id !in Expire(Apply(s, x), readings, later).proofs
  {
    var c := ParseProof(x.body, s.fqdn, x.validated).value;
    hide ParseProof;
    PutStores(s, x, c);
    UnixLaws(x.now, 0);
    UnixLaws(Reading(readings, x.id, later), 0);
  }

  /** An honest proof published with room is served unchanged at every later time before it expires,
      whatever happens to other IDs in between. */
  lemma PublishedIsServed(s: Store, c: Challenge, n: nat, issued: int, put: Action, between: seq<Action>,
    readings: map<Token, int>, now: int)
    requires Inv(s) && put.Put? && put.id == c.id && put.body == SignProof(Honest(n), ChallengeDoc(c, Marshalled))
    requires c.version == 1 && !c.id.Noise? && !c.nonce.Noise? && c.keyThumbprint == Thumbprint(JwkFor(Honest(n)))
    requires c.fqdn == s.fqdn && ValidFqdn(c.fqdn) && ValidFqdn(c.trustDomain) && c.serverId == ServerId(c.trustDomain)
    requires c.expiresAt == Unix(issued + CHALLENGE_TTL) && 0 <= c.expiresAt < Pow10(19)
    requires Unix(issued) * SECOND <= put.validated < c.expiresAt * SECOND
    requires |Expire(s, put.readings, put.now).proofs| < PROOF_CAPACITY
    requires forall x :: x in between ==> !Touches(x, c.id, c.expiresAt)
    requires Unix(Reading(readings, c.id, now)) < c.expiresAt
    ensures var t := Expire(RunOn(Apply(s, put), between), readings, now);
      c.id in t.proofs && t.proofs[c.id].body == put.body
  {
    HonestParses(c, n, issued, put.validated, s.fqdn);
    PutStores(s, put, c);
    Untouched(Apply(s, put), between, c.id, Stored(put.body, c.expiresAt));
  }

  function RunOn(s: Store, xs: seq<Action>): Store
    decreases xs
  {
    if |xs| == 0 then s else RunOn(Apply(s, xs[0]), xs[1..])
  }

  /** Actions that can remove or replace a given proof: its own PUT or DELETE, or a late expiry. */
  predicate Touches(x: Action, id: Token, expiresAt: int)
  {
    match x
    case Put(other, _, _, readings, now) => other == id || Unix(Reading(readings, id, now)) >= expiresAt
    case Delete(other) => other == id
    case Get(readings, now) => Unix(Reading(readings, id, now)) >= expiresAt
  }

  lemma HonestParses(c: Challenge, n: nat, issued: int, now: int, fqdn: string)
    requires c.version == 1 && !c.id.Noise? && !c.nonce.Noise? && c.keyThumbprint == Thumbprint(JwkFor(Honest(n)))
    requires c.fqdn == fqdn && ValidFqdn(c.fqdn) && ValidFqdn(c.trustDomain) && c.serverId == ServerId(c.trustDomain)
    requires c.expiresAt == Unix(issued + CHALLENGE_TTL) && 0 <= c.expiresAt < Pow10(19)
    requires Unix(issued) * SECOND <= now < c.expiresAt * SECOND
    ensures ParseProof(SignProof(Honest(n), ChallengeDoc(c, Marshalled)), fqdn, now) == Some(c)
  {
    hide Size, ValidFqdn, Pow10;
    HonestDocumentsFit(c, Honest(n));
    WindowIsExact(c, issued, now);
    ProofRoundTrip(Honest(n), ChallengeDoc(c, Marshalled), JwkFor(Honest(n)));
  }

  lemma PutStores(s: Store, put: Action, c: Challenge)
    requires put.Put? && ParseProof(put.body, s.fqdn, put.validated) == Some(c) && c.id == put.id
    requires |Expire(s, put.readings, put.now).proofs| < PROOF_CAPACITY
    ensures put.id in Apply(s, put).proofs && Apply(s, put).proofs[put.id] == Stored(put.body, c.expiresAt)
  {
    hide ParseProof;
  }

  lemma {:induction false} Untouched(s: Store, xs: seq<Action>, id: Token, entry: Stored)
    requires id in s.proofs && s.proofs[id] == entry
    requires forall x :: x in xs ==> !Touches(x, id, entry.expiresAt)
    ensures id in RunOn(s, xs).proofs && RunOn(s, xs).proofs[id] == entry
    decreases xs
  {
    if |xs| > 0 {
      UntouchedOnce(s, xs[0], id, entry);
      Untouched(Apply(s, xs[0]), xs[1..], id, entry);
    }
  }

  lemma UntouchedOnce(s: Store, x: Action, id: Token, entry: Stored)
    requires id in s.proofs && s.proofs[id] == entry && !Touches(x, id, entry.expiresAt)
    ensures id in Apply(s, x).proofs && Apply(s, x).proofs[id] == entry
  {
    hide ParseProof;
  }

  // ---------------------------------------------------------------- implementation

  class ProofStore {
    var store: Store

    constructor (fqdn: string)
      ensures store == Empty(fqdn)
    {
      store := Empty(fqdn);
    }

    /** expireLocked: deletes stale proofs one by one, in any order. */
    method ExpireLocked(readings: map<Token, int>, now: int)
      modifies this
      ensures store == Expire(old(store), readings, now) && store.published == old(store).published
    {
      ghost var before := store;
      var todo := store.proofs.Keys;
      ghost var gone: set<Token> := {};
      while todo != {}
        invariant todo <= before.proofs.Keys && gone <= before.proofs.Keys && gone !! todo
        invariant gone == set id | id in before.proofs.Keys - todo
          && before.proofs[id].expiresAt <= Unix(Reading(readings, id, now))
        invariant store ==
          before.(proofs := before.proofs - gone, pending := before.pending - |gone|,
            expired := before.expired + |gone|)
      {
        var id :| id in todo;
        todo := todo - {id};
        if store.proofs[id].expiresAt <= Unix(Reading(readings, id, now)) {
          store := store.(proofs := store.proofs - {id}, pending := store.pending - 1, expired := store.expired + 1);
          assert before.proofs - (gone + {id}) == before.proofs - gone - {id};
          gone := gone + {id};
        }
      }
      assert gone == Stale(before, readings, now);
    }

    /** control, PUT branch, with the peer and path checks already passed. */
    method Put(id: Token, body: Document, validated: int, readings: map<Token, int>, now: int) returns (created: bool)
      modifies this
      ensures store == Apply(old(store), Action.Put(id, body, validated, readings, now))
      ensures created <==> store.published == old(store).published + 1
    {
      hide ParseProof, Expire;
      var c := ParseProof(body, store.fqdn, validated);
      if c.None? || c.value.id != id {
        return false;
      }
      ExpireLocked(readings, now);
      var held := id in store.proofs;
      if !held && |store.proofs| >= PROOF_CAPACITY {
        return false;
      }
      store := store.(proofs := store.proofs[id := Stored(body, c.value.expiresAt)], published := store.published + 1);
      if held {
        store := store.(overwritten := store.overwritten + 1);
      } else {
        store := store.(pending := store.pending + 1);
      }
      created := true;
    }

    method Delete(id: Token)
      modifies this
      ensures store == Apply(old(store), Action.Delete(id))
    {
      if id in store.proofs {
        store := store.(proofs := store.proofs - {id}, pending := store.pending - 1, deleted := store.deleted + 1);
      }
    }

    /** public, with the method, host and path checks already passed. */
    method Get(id: Token, readings: map<Token, int>, now: int) returns (r: Option<Document>)
      modifies this
      ensures store == Apply(old(store), Action.Get(readings, now))
      ensures r.Some? <==> id in store.proofs
      ensures r.Some? ==> r.value == old(store).proofs[id].body && now < old(store).proofs[id].expiresAt * SECOND
    {
      ExpireLocked(readings, now);
      if id !in store.proofs {
        return None;
      }
      GetServesFresh(old(store), readings, now, id);
      r := Some(store.proofs[id].body);
    }
  }
}
