/** The http_fqdn wire documents and the checks every party makes on them.
    A document is a term: what it decodes to, plus the layout of its bytes, so two documents
    are equal exactly when their bytes are. Signatures and hashes are ideal. */
module Wire {
  import opened Clock
  import opened Text

  const CHALLENGE_TTL: int := 120 * SECOND
  const MAX_DOCUMENT: nat := 8192
  const PROOF_TYPE: string := "spire-http-node-attestation+jws"

  /** An Ed25519 key pair: the one an honest agent attempt generates, or any other. */
  datatype Key = Honest(attempt: nat) | Foreign(serial: nat)

  /** The "x" member of a JWK: the canonical base64url form of a public key, or other text. */
  datatype Point = Canonical(key: Key) | Malformed(text: string)

  datatype Jwk = Jwk(kty: string, crv: string, x: Point)

  /** A 43-character base64url value. Thumbprints are injective and never equal a random value. */
  datatype Token = Random(serial: nat) | Thumbprint(of: Jwk) | Noise(text: string)

  datatype Request = Request(version: int, fqdn: string, jwk: Jwk)

  datatype Challenge = Challenge(
    version: int, id: Token, nonce: Token, fqdn: string, trustDomain: string,
    serverId: string, keyThumbprint: Token, expiresAt: int)

  datatype Ready = Ready(version: int, id: Token)

  /** json.Marshal output, or any other byte string with the same meaning. */
  datatype Form = Marshalled | Handmade(tag: nat, size: nat)

  /** A compact EdDSA JWS. signer is the one key, if any, under which the signature verifies. */
  datatype Proof = Compact(typ: string, payload: Document, signer: Option<Key>) | NotCompact(text: string)

  datatype Document =
    | RequestDoc(request: Request, form: Form)
    | ChallengeDoc(challenge: Challenge, form: Form)
    | ReadyDoc(ready: Ready, form: Form)
    | ProofDoc(jwk: Jwk, proof: Proof, form: Form)
    | Garbage(text: string)

  // ---------------------------------------------------------------- sizes

  const REQUEST_FRAME: string := "{\"version\":,\"fqdn\":\"\",\"bootstrap_jwk\":}"
  const CHALLENGE_FRAME: string :=
    "{\"version\":,\"challenge_id\":\"\",\"nonce\":\"\",\"fqdn\":\"\",\"trust_domain\":\"\"," +
    "\"server_id\":\"\",\"bootstrap_key_thumbprint\":\"\",\"expires_at\":}"
  const READY_FRAME: string := "{\"version\":,\"challenge_id\":\"\"}"
  const JWK_FRAME: string := "{\"kty\":\"\",\"crv\":\"\",\"x\":\"\"}"
  const PROOF_FRAME: string := "{\"bootstrap_jwk\":,\"proof\":\"\"}"
  const HEADER_FRAME: string := "{\"alg\":\"EdDSA\",\"typ\":\"\"}"

  function DecimalSize(n: int): (size: nat)
    ensures size >= 1
    decreases if n < 0 then 1 - n else n
  {
    if n < 0 then 1 + DecimalSize(-n) else if n < 10 then 1 else 1 + DecimalSize(n / 10)
  }

  /** Length of unpadded base64 text for n bytes. */
  function Base64Size(n: nat): nat { (8 * n + 5) / 6 }

  function TokenSize(t: Token): nat { if t.Noise? then |t.text| else Base64Size(32) }

  function JwkSize(j: Jwk): nat
  {
    |JWK_FRAME| + |j.kty| + |j.crv| + if j.x.Canonical? then Base64Size(32) else |j.x.text|
  }

  function ChallengeSize(c: Challenge): nat
  {
    |CHALLENGE_FRAME| + DecimalSize(c.version) + TokenSize(c.id) + TokenSize(c.nonce) + |c.fqdn| +
    |c.trustDomain| + |c.serverId| + TokenSize(c.keyThumbprint) + DecimalSize(c.expiresAt)
  }

  function ProofSize(p: Proof): nat
  {
    match p
    case NotCompact(text) => |text|
    case Compact(typ, payload, _) =>
      Base64Size(|HEADER_FRAME| + |typ|) + 1 + Base64Size(Size(payload)) + 1 + Base64Size(64)
  }

  /** Bytes of a document. Marshalled strings here never need JSON escapes. */
  function Size(d: Document): nat
  {
    match d
    case Garbage(text) => |text|
    case RequestDoc(r, Marshalled) => |REQUEST_FRAME| + DecimalSize(r.version) + |r.fqdn| + JwkSize(r.jwk)
    case ChallengeDoc(c, Marshalled) => ChallengeSize(c)
    case ReadyDoc(r, Marshalled) => |READY_FRAME| + DecimalSize(r.version) + TokenSize(r.id)
    case ProofDoc(j, p, Marshalled) => |PROOF_FRAME| + JwkSize(j) + ProofSize(p)
    case RequestDoc(_, Handmade(_, size)) => size
    case ChallengeDoc(_, Handmade(_, size)) => size
    case ReadyDoc(_, Handmade(_, size)) => size
    case ProofDoc(_, _, Handmade(_, size)) => size
  }

  /** decodeJSON rejects empty and oversized input before it parses anything. */
  predicate Fits(d: Document) { 0 < Size(d) <= MAX_DOCUMENT }

  // ---------------------------------------------------------------- names

  predicate Alnum(c: char) { 'a' <= c <= 'z' || '0' <= c <= '9' }

  /** labelPattern: 1 to 63 of [a-z0-9-], with no hyphen at either end. */
  predicate ValidLabel(s: string)
  {
    1 <= |s| <= 63 && Alnum(s[0]) && Alnum(s[|s| - 1]) && forall c :: c in s ==> Alnum(c) || c == '-'
  }

  predicate ValidFqdn(s: string)
  {
    |s| <= 253 && '.' in s && forall part :: part in Split(s, '.') ==> ValidLabel(part)
  }

  predicate ValidRandom(t: Token) { !t.Noise? }

  function ServerId(domain: string): string { "spiffe://" + domain + "/spire/server" }

  function AgentId(domain: string, name: string): string
  {
    "spiffe://" + domain + "/spire/agent/http_fqdn/" + name
  }

  function JwkFor(key: Key): Jwk { Jwk("OKP", "Ed25519", Canonical(key)) }

  function KeyOf(j: Jwk): Option<Key>
  {
    if j.kty == "OKP" && j.crv == "Ed25519" && j.x.Canonical? then Some(j.x.key) else None
  }

  // ---------------------------------------------------------------- checks

  /** validateChallenge, with the reader's own clock. */
  predicate ValidChallenge(c: Challenge, now: int)
  {
    && c.version == 1 && ValidRandom(c.id) && ValidRandom(c.nonce)
    && ValidFqdn(c.fqdn) && ValidFqdn(c.trustDomain)
    && c.serverId == ServerId(c.trustDomain) && ValidRandom(c.keyThumbprint)
    && Unix(now) < c.expiresAt <= Unix(now + CHALLENGE_TTL)
  }

  function DecodeRequest(d: Document): Option<Request>
  {
    if Fits(d) && d.RequestDoc? then Some(d.request) else None
  }

  function DecodeChallenge(d: Document): Option<Challenge>
  {
    if Fits(d) && d.ChallengeDoc? then Some(d.challenge) else None
  }

  function DecodeReady(d: Document): Option<Ready>
  {
    if Fits(d) && d.ReadyDoc? then Some(d.ready) else None
  }

  function SignProof(key: Key, raw: Document): Document
  {
    ProofDoc(JwkFor(key), Compact(PROOF_TYPE, raw, Some(key)), Marshalled)
  }

  /** verifyProof: the signed payload, if the document proves possession of the expected key. */
  function VerifyProof(d: Document, expected: Jwk): Option<Document>
  {
    if !Fits(d) || !d.ProofDoc? || d.jwk != expected || KeyOf(expected).None? then None
    else match d.proof
      case NotCompact(_) => None
      case Compact(typ, payload, signer) =>
        if typ != PROOF_TYPE || signer != KeyOf(expected) || Size(payload) > MAX_DOCUMENT then None
        else Some(payload)
  }

  /** parseProof: the responder's check before it stores a document. */
  function ParseProof(d: Document, fqdn: string, now: int): Option<Challenge>
  {
    if !Fits(d) || !d.ProofDoc? then None
    else match VerifyProof(d, d.jwk)
      case None => None
      case Some(payload) =>
        match DecodeChallenge(payload)
        case None => None
        case Some(c) =>
          if ValidChallenge(c, now) && c.fqdn == fqdn && c.keyThumbprint == Thumbprint(d.jwk) then Some(c)
          else None
  }

  // ---------------------------------------------------------------- facts

  /** A marshalled document verifies under exactly the signer's own JWK and returns the exact
      bytes signed, whenever both fit the limit. */
  lemma ProofRoundTrip(k: Key, raw: Document, expected: Jwk)
    requires Fits(SignProof(k, raw)) && Size(raw) <= MAX_DOCUMENT
    ensures VerifyProof(SignProof(k, raw), expected) == if expected == JwkFor(k) then Some(raw) else None
  {
  }

  /** Challenge made by Server.Begin. */
  function IssuedChallenge(id: Token, nonce: Token, fqdn: string, domain: string, jwk: Jwk, now: int): Challenge
  {
    Challenge(1, id, nonce, fqdn, domain, ServerId(domain), Thumbprint(jwk), Unix(now + CHALLENGE_TTL))
  }

  lemma UnixLaws(t: int, d: int)
    ensures Unix(t + d * SECOND) == Unix(t) + d
    ensures Unix(t) * SECOND <= t < (Unix(t) + 1) * SECOND
  {
  }

  /** Every floored check of one issued challenge, on any clock: it passes exactly during the
      120 whole seconds that start with the second of issue. */
  lemma WindowIsExact(c: Challenge, issued: int, now: int)
    requires c.version == 1 && ValidRandom(c.id) && ValidRandom(c.nonce) && ValidRandom(c.keyThumbprint)
    requires ValidFqdn(c.fqdn) && ValidFqdn(c.trustDomain) && c.serverId == ServerId(c.trustDomain)
    requires c.expiresAt == Unix(issued + CHALLENGE_TTL)
    ensures ValidChallenge(c, now) <==> Unix(issued) * SECOND <= now < c.expiresAt * SECOND
    ensures c.expiresAt * SECOND <= issued + CHALLENGE_TTL < (c.expiresAt + 1) * SECOND
  {
    UnixLaws(issued, 120);
    UnixLaws(now, 120);
    UnixLaws(issued, 0);
    UnixLaws(now, 0);
  }

  lemma {:induction false} DecimalSizeBound(n: nat, digits: nat)
    requires digits >= 1 && n < Pow10(digits)
    ensures DecimalSize(n) <= digits
    decreases digits
  {
    if n >= 10 {
      DecimalSizeBound(n / 10, digits - 1);
    }
  }

  function Pow10(n: nat): nat { if n == 0 then 1 else 10 * Pow10(n - 1) }

  /** A number takes as many bytes as its digits, and a sign if it is negative. */
  lemma {:induction false} DecimalSizeExactly(n: int)
    requires n > 0
    ensures Pow10(DecimalSize(n) - 1) <= n < Pow10(DecimalSize(n))
    ensures DecimalSize(0) == 1 && DecimalSize(-n) == DecimalSize(n) + 1
  {
    if n >= 10 {
      DecimalSizeExactly(n / 10);
    } else {
      assert Pow10(1) == 10 * Pow10(0);
    }
  }

  /** Base64 text without padding is the shortest that carries the bits, six to a character. */
  lemma Base64SizeExactly(n: nat, size: nat)
    ensures 6 * size >= 8 * n <==> size >= Base64Size(n)
  {
  }

  /** A well-formed challenge takes at most 1200 bytes. */
  lemma ChallengeIsSmall(c: Challenge)
    requires c.version == 1 && !c.id.Noise? && !c.nonce.Noise? && !c.keyThumbprint.Noise?
    requires |c.fqdn| <= 253 && |c.trustDomain| <= 253 && c.serverId == ServerId(c.trustDomain)
    requires 0 <= c.expiresAt < Pow10(19)
    ensures 0 < ChallengeSize(c) <= 1200
  {
    DecimalSizeBound(c.expiresAt, 19);
    assert |CHALLENGE_FRAME| <= 200;
  }

  /** Every document two honest parties exchange fits the 8 KiB limit, for all names validFQDN
      admits and all expiry times an int64 holds. */
  lemma HonestDocumentsFit(c: Challenge, k: Key)
    requires c.version == 1 && !c.id.Noise? && !c.nonce.Noise? && !c.keyThumbprint.Noise?
    requires ValidFqdn(c.fqdn) && ValidFqdn(c.trustDomain) && c.serverId == ServerId(c.trustDomain)
    requires 0 <= c.expiresAt < Pow10(19)
    ensures Fits(ChallengeDoc(c, Marshalled))
    ensures Fits(SignProof(k, ChallengeDoc(c, Marshalled)))
    ensures Fits(RequestDoc(Request(1, c.fqdn, JwkFor(k)), Marshalled))
    ensures Fits(ReadyDoc(Ready(1, c.id), Marshalled))
  {
    hide ValidFqdn, ChallengeSize, Pow10, Size, ProofSize, JwkSize;
    FqdnIsShort(c.fqdn);
    FqdnIsShort(c.trustDomain);
    ChallengeIsSmall(c);
    ProofIsSmall(c, k);
    RequestIsSmall(c.fqdn, k);
    ReadyIsSmall(c.id);
  }

  lemma FqdnIsShort(s: string)
    requires ValidFqdn(s)
    ensures |s| <= 253
  {
  }

  lemma ProofIsSmall(c: Challenge, k: Key)
    requires 0 < ChallengeSize(c) <= 1200
    ensures Fits(ChallengeDoc(c, Marshalled)) && Fits(SignProof(k, ChallengeDoc(c, Marshalled)))
  {
    hide ChallengeSize;
    assert ProofSize(Compact(PROOF_TYPE, ChallengeDoc(c, Marshalled), Some(k))) <= Base64Size(100) + Base64Size(1200)
      + Base64Size(64) + 2;
  }

  lemma RequestIsSmall(fqdn: string, k: Key)
    requires |fqdn| <= 253
    ensures Fits(RequestDoc(Request(1, fqdn, JwkFor(k)), Marshalled))
  {
  }

  lemma ReadyIsSmall(id: Token)
    requires !id.Noise?
    ensures Fits(ReadyDoc(Ready(1, id), Marshalled))
  {
  }
}
