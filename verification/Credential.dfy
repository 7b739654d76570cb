/** The signed upload credential and the byte bound it carries
    (backupxfer/token.go, backupxfer/presenter.go, and the pre-body gate of
    backupxfer/server.go).

    JSON, base64url and HMAC-SHA-256 are function-valued parameters. */
module Credential {
  import opened Text
  import opened Members

  const TOKEN_PREFIX := "rbx1"
  const MAX_TOKEN := 4096
  const SECOND := 1_000_000_000
  const MAX_TTL := 50 * 60 * SECOND
  const CLOCK_SKEW := 60
  const USE_RESTORE := "restore"

  datatype Grant = Grant(
    generation: string, member: string, nodeID: string, jobID: string, maxBytes: nat,
    issuedAt: int, expiresAt: int, nonce: string, use: string)
  {
    predicate ForUpload() {
      use == ""
    }
  }

  datatype Refusal = Malformed | Signature | Expired | NotYet | Shape | NoScope | NoBound | BadUse | BadTtl

  datatype Result<+T> = Ok(value: T) | Err(error: Refusal)

  /** The codecs and the keyed MAC of one process. */
  datatype Wire = Wire(
    b64: string -> string, unb64: string -> Option<string>,
    json: Grant -> string, unjson: string -> Option<Grant>,
    mac: string -> string)

  predicate Base64Char(c: char) {
    'a' <= c <= 'z' || 'A' <= c <= 'Z' || '0' <= c <= '9' || c == '-' || c == '_'
  }

  predicate Base64Text(s: string) {
    forall i :: 0 <= i < |s| ==> Base64Char(s[i])
  }

  /** The codecs are lossless and base64url stays in its alphabet. Decoding need
      not be strict: other texts may decode to the same bytes. */
  ghost predicate Lawful(w: Wire) {
    && (forall x :: w.unb64(w.b64(x)) == Some(x))
    && (forall x :: Base64Text(w.b64(x)))
    && (forall g :: w.unjson(w.json(g)) == Some(g))
  }

  // ---------- mint and verify ----------

  predicate Shaped(g: Grant) {
    && ValidName(g.generation) && ValidMember(g.member)
    && TrimSpace(g.nodeID) != "" && TrimSpace(g.jobID) != "" && g.maxBytes != 0
    && (g.use == "" || g.use == USE_RESTORE)
  }

  /** The grant as signed: a caller chooses neither the times nor the nonce. */
  function Filled(w: Wire, g: Grant, ttl: int, now: int, nonce: string): Grant {
    g.(issuedAt := now / SECOND, expiresAt := (now + ttl) / SECOND, nonce := w.b64(nonce))
  }

  function Payload(w: Wire, g: Grant): string {
    TOKEN_PREFIX + "." + w.b64(w.json(g))
  }

  /** Authority.Mint at clock reading `now`, in nanoseconds. */
  function Mint(w: Wire, g: Grant, ttl: int, now: int, nonce: string): Result<string> {
    if !ValidName(g.generation) || !ValidMember(g.member) then Err(Shape)
    else if TrimSpace(g.nodeID) == "" || TrimSpace(g.jobID) == "" then Err(NoScope)
    else if g.maxBytes == 0 then Err(NoBound)
    else if g.use != "" && g.use != USE_RESTORE then Err(BadUse)
    else if ttl <= 0 || ttl > MAX_TTL then Err(BadTtl)
    else
      var payload := Payload(w, Filled(w, g, ttl, now, nonce));
      Ok(payload + "." + w.b64(w.mac(payload)))
  }

  /** The signed half of Verify: nothing is decoded before the MAC agrees. */
  function SignedParts(w: Wire, parts: seq<string>): Result<Grant> {
    if |parts| != 3 || parts[0] != TOKEN_PREFIX then Err(Malformed)
    else
      var sig := w.unb64(parts[2]);
      if sig.None? then Err(Malformed)
      else if sig.value != w.mac(parts[0] + "." + parts[1]) then Err(Signature)
      else
        var body := w.unb64(parts[1]);
        if body.None? then Err(Malformed)
        else
          var g := w.unjson(body.value);
          if g.None? then Err(Malformed) else Ok(g.value)
  }

  function Signed(w: Wire, token: string): Result<Grant> {
    var t := TrimSpace(token);
    if |t| > MAX_TOKEN then Err(Malformed) else SignedParts(w, Split(t, '.'))
  }

  /** The rest of Verify: the clock, then the shape. */
  function Current(g: Grant, now: int): Result<Grant> {
    if g.expiresAt <= now / SECOND then Err(Expired)
    else if g.issuedAt > now / SECOND + CLOCK_SKEW then Err(NotYet)
    else if !Shaped(g) then Err(Shape)
    else Ok(g)
  }

  /** Authority.Verify at clock reading `now`, in nanoseconds. */
  function Verify(w: Wire, token: string, now: int): Result<Grant> {
    Checked(Signed(w, token), now)
  }

  function Checked(signed: Result<Grant>, now: int): Result<Grant> {
    match signed
    case Err(e) => Err(e)
    case Ok(g) => Current(g, now)
  }

  lemma CheckedOk(signed: Result<Grant>, now: int)
    requires Checked(signed, now).Ok?
    ensures signed == Checked(signed, now) && now / SECOND < signed.value.expiresAt && Shaped(signed.value)
    ensures signed.value.issuedAt <= now / SECOND + CLOCK_SKEW
  {
  }

  /** Joining three dot-free texts with dots and splitting gives them back. */
  lemma TokenParts(a: string, b: string)
    requires Base64Text(a) && Base64Text(b)
    ensures Split(TOKEN_PREFIX + "." + a + "." + b, '.') == [TOKEN_PREFIX, a, b]
  {
    assert TOKEN_PREFIX + "." + a + "." + b == TOKEN_PREFIX + ['.'] + (a + ['.'] + b);
    SplitHead(TOKEN_PREFIX, a + ['.'] + b, '.');
    SplitHead(a, b, '.');
    SplitWhole(b, '.');
  }

  lemma TokenTrim(a: string, b: string)
    requires Base64Text(b)
    ensures var t := TOKEN_PREFIX + "." + a + "." + b; TrimSpace(t) == t
  {
    var t := TOKEN_PREFIX + "." + a + "." + b;
    assert Solid(t[0]);
    assert t[|t| - 1] == if b == "" then '.' else b[|b| - 1];
    TrimSolid(t);
  }

  lemma SignedPartsOf(w: Wire, f: Grant)
    requires Lawful(w)
    ensures SignedParts(w, [TOKEN_PREFIX, w.b64(w.json(f)), w.b64(w.mac(Payload(w, f)))]) == Ok(f)
  {
    assert TOKEN_PREFIX + "." + w.b64(w.json(f)) == Payload(w, f);
  }

  lemma SignedText(w: Wire, a: string, b: string, token: string)
    requires Base64Text(a) && Base64Text(b)
    requires token == TOKEN_PREFIX + "." + a + "." + b
    ensures Signed(w, token) == if |token| > MAX_TOKEN then Err(Malformed) else SignedParts(w, [TOKEN_PREFIX, a, b])
  {
    TokenParts(a, b);
    TokenTrim(a, b);
  }

  lemma SignedPayload(w: Wire, f: Grant, token: string)
    requires Lawful(w)
    requires token == Payload(w, f) + "." + w.b64(w.mac(Payload(w, f)))
    ensures Signed(w, token) == if |token| > MAX_TOKEN then Err(Malformed) else Ok(f)
  {
    SignedPartsOf(w, f);
    SignedText(w, w.b64(w.json(f)), w.b64(w.mac(Payload(w, f))), token);
  }

  lemma VerifyOfFilled(w: Wire, g: Grant, ttl: int, mintedAt: int, nonce: string, now: int)
    requires Lawful(w)
    ensures match Mint(w, g, ttl, mintedAt, nonce)
            case Err(_) => true
            case Ok(token) =>
              Verify(w, token, now) ==
              if |token| > MAX_TOKEN then Err(Malformed)
              else if now / SECOND >= (mintedAt + ttl) / SECOND then Err(Expired)
              else if now / SECOND + CLOCK_SKEW < mintedAt / SECOND then Err(NotYet)
              else Ok(Filled(w, g, ttl, mintedAt, nonce))
  {
    match Mint(w, g, ttl, mintedAt, nonce)
    case Err(_) =>
    case Ok(token) => SignedPayload(w, Filled(w, g, ttl, mintedAt, nonce), token);
  }

  lemma FilledIs(w: Wire, g: Grant, ttl: int, now: int, nonce: string)
    ensures Filled(w, g, ttl, now, nonce) ==
            Grant(g.generation, g.member, g.nodeID, g.jobID, g.maxBytes,
                  now / SECOND, (now + ttl) / SECOND, w.b64(nonce), g.use)
  {
  }

  /** What Verify answers about a token Mint issued, at every clock reading: the
      very grant that was asked for, from the skew before issue until expiry, if
      the token is at most 4096 bytes. */
  lemma VerifyOfMint(w: Wire, g: Grant, ttl: int, mintedAt: int, nonce: string, now: int)
    requires Lawful(w)
    ensures match Mint(w, g, ttl, mintedAt, nonce)
            case Err(_) => true
            case Ok(token) =>
              Verify(w, token, now) ==
              if |token| > 4096 then Err(Malformed)
              else if now / SECOND >= (mintedAt + ttl) / SECOND then Err(Expired)
              else if now / SECOND + 60 < mintedAt / SECOND then Err(NotYet)
              else Ok(Grant(g.generation, g.member, g.nodeID, g.jobID, g.maxBytes,
                            mintedAt / SECOND, (mintedAt + ttl) / SECOND, w.b64(nonce), g.use))
  {
    VerifyOfFilled(w, g, ttl, mintedAt, nonce, now);
    FilledIs(w, g, ttl, mintedAt, nonce);
  }

  /** `f` is the grant `g` as a caller asked for it, whatever was filled in. */
  predicate Asks(g: Grant, f: Grant) {
    && f.generation == g.generation && f.member == g.member && f.nodeID == g.nodeID
    && f.jobID == g.jobID && f.maxBytes == g.maxBytes && f.use == g.use
  }

  /** A grant is minted exactly when Verify would accept its shape, for a life of
      more than nothing and at most fifty minutes. */
  lemma MintableIff(w: Wire, g: Grant, ttl: int, now: int, nonce: string)
    ensures Mint(w, g, ttl, now, nonce).Ok? <==>
            && ValidName(g.generation) && ValidMember(g.member)
            && TrimSpace(g.nodeID) != "" && TrimSpace(g.jobID) != "" && g.maxBytes > 0
            && (g.use == "" || g.use == "restore") && 0 < ttl <= 3000 * 1_000_000_000
    ensures Mint(w, g, ttl, now, nonce).Ok? <==> Shaped(g) && 0 < ttl <= MAX_TTL
  {
  }

  /** Whatever Verify makes of a minted token, it is the grant the caller asked for:
      a restore credential never comes back as an upload one. */
  lemma VerifiedAsAsked(w: Wire, g: Grant, ttl: int, mintedAt: int, nonce: string, now: int)
    requires Lawful(w) && Mint(w, g, ttl, mintedAt, nonce).Ok?
    ensures var v := Verify(w, Mint(w, g, ttl, mintedAt, nonce).value, now);
            v.Ok? ==> Asks(g, v.value) && (v.value.ForUpload() <==> g.use == "")
  {
    VerifyOfMint(w, g, ttl, mintedAt, nonce, now);
  }

  /** An HMAC verifies only on what was signed: if the token's signature checks
      out, its payload is that of a grant in `minted`. */
  ghost predicate Unforged(w: Wire, minted: set<Grant>, token: string) {
    UnforgedParts(w, minted, Split(TrimSpace(token), '.'))
  }

  lemma MintedIsUnforged(w: Wire, minted: set<Grant>, f: Grant)
    requires Lawful(w) && f in minted
    ensures var token := Payload(w, f) + "." + w.b64(w.mac(Payload(w, f)));
            Unforged(w, minted, token) && TrimSpace(token) == token
  {
    var a, b := w.b64(w.json(f)), w.b64(w.mac(Payload(w, f)));
    assert Payload(w, f) + "." + b == TOKEN_PREFIX + "." + a + "." + b;
    TokenParts(a, b);
    TokenTrim(a, b);
    assert TOKEN_PREFIX + "." + a == Payload(w, f);
  }

  /** Whatever text a presenter sends, a grant Verify returns was minted. */
  lemma VerifiedWasMinted(w: Wire, minted: set<Grant>, token: string, now: int)
    requires Lawful(w) && Unforged(w, minted, token)
    requires Verify(w, token, now).Ok?
    ensures Verify(w, token, now).value in minted
  {
    VerifiedIsSigned(w, token, now);
    SignedIsParts(w, token);
    PartsWereMinted(w, minted, Split(TrimSpace(token), '.'));
  }

  lemma VerifiedIsSigned(w: Wire, token: string, now: int)
    requires Verify(w, token, now).Ok?
    ensures Signed(w, token) == Verify(w, token, now)
    ensures now / SECOND < Signed(w, token).value.expiresAt && Shaped(Signed(w, token).value)
    ensures Signed(w, token).value.issuedAt <= now / SECOND + CLOCK_SKEW
  {
    CheckedOk(Signed(w, token), now);
  }

  lemma SignedIsParts(w: Wire, token: string)
    requires Signed(w, token).Ok?
    ensures Signed(w, token) == SignedParts(w, Split(TrimSpace(token), '.'))
  {
  }

  /** The same of the parts of the token. */
  ghost predicate UnforgedParts(w: Wire, minted: set<Grant>, parts: seq<string>) {
    |parts| == 3 && parts[0] == TOKEN_PREFIX && w.unb64(parts[2]) == Some(w.mac(parts[0] + "." + parts[1]))
    ==> exists g :: g in minted && parts[0] + "." + parts[1] == Payload(w, g)
  }

  lemma PartsWereMinted(w: Wire, minted: set<Grant>, parts: seq<string>)
    requires Lawful(w) && UnforgedParts(w, minted, parts) && SignedParts(w, parts).Ok?
    ensures SignedParts(w, parts).value in minted
  {
    var g :| g in minted && parts[0] + "." + parts[1] == Payload(w, g);
    var head := TOKEN_PREFIX + ".";
    assert parts[1] == (head + parts[1])[|head|..];
    assert w.b64(w.json(g)) == (head + w.b64(w.json(g)))[|head|..];
  }

  lemma VerifyInTime(w: Wire, token: string, now: int)
    requires Verify(w, token, now).Ok?
    ensures var g := Verify(w, token, now).value;
            && now / SECOND < g.expiresAt && g.issuedAt <= now / SECOND + 60
            && ValidName(g.generation) && ValidMember(g.member) && g.maxBytes > 0
            && TrimSpace(g.nodeID) != "" && TrimSpace(g.jobID) != "" && (g.use == "" || g.use == "restore")
  {
    VerifiedIsSigned(w, token, now);
  }

  /** CheckPresenter: a grant belongs to the node whose key presented it. */
  predicate MayPresent(g: Grant, keyOwner: string) {
    keyOwner != "" && g.nodeID == keyOwner
  }

  // ---------- the byte bound ----------

  const CHUNK := 65536
  const TAG := 16
  const MAGIC_BYTES := 19
  const MAX_HEADER := 4096
  const U64 := 0x1_0000_0000_0000_0000

  /** SealedSizeBound before it is stored in 64 bits. */
  function SealedSize(p: nat): nat {
    p + (p / CHUNK + 2) * TAG + MAGIC_BYTES + MAX_HEADER
  }

  /** SealedSizeBound, with uint64 wrap-around. */
  function SealedSizeBound(p: nat): nat {
    SealedSize(p) % U64
  }

  /** The gate before the body: a declared length that cannot fit is refused.
      No declaration, or an unreadable one, passes. */
  predicate GatePasses(declared: Option<nat>, maxBytes: nat) {
    declared.Some? ==> !(declared.value > maxBytes || SealedSizeBound(declared.value) > maxBytes)
  }

  ghost predicate GateExact(p: nat) {
    forall d: nat :: d < U64 ==> (GatePasses(Some(d), SealedSizeBound(p)) <==> d <= p)
  }

  lemma SealedSizeMonotone(a: nat, b: nat)
    requires a < b
    ensures SealedSize(a) < SealedSize(b)
  {
    assert a / CHUNK <= b / CHUNK;
  }

  lemma SealedSizeGrows(p: nat)
    ensures p < SealedSize(p)
    ensures SealedSize(p) <= 2 * p + 5000
  {
  }

  lemma GatePassesInRange(p: nat, d: nat)
    requires SealedSize(SealedSize(p)) < U64 && d < U64
    ensures GatePasses(Some(d), SealedSizeBound(p)) <==> d <= p
  {
    var m := SealedSize(p);
    SealedSizeGrows(p);
    SealedSizeGrows(m);
    SizeInRange(p);
    if d <= p {
      SealedSizeAtMost(d, p);
      SizeInRange(d);
    } else if d <= m {
      SealedSizeAtMost(d, m);
      SizeInRange(d);
      SealedSizeMonotone(p, d);
    }
  }

  lemma SizeInRange(p: nat)
    requires SealedSize(p) < U64
    ensures SealedSizeBound(p) == SealedSize(p)
  {
  }

  lemma SealedSizeAtMost(a: nat, b: nat)
    requires a <= b
    ensures SealedSize(a) <= SealedSize(b)
  {
    if a < b {
      SealedSizeMonotone(a, b);
    }
  }

  /** A credential minted for `p` staged bytes admits exactly the declarations
      up to `p` if and only if bounding twice stays inside 64 bits. */
  lemma GateExactIff(p: nat)
    requires p < U64
    ensures GateExact(p) <==> SealedSize(SealedSize(p)) < U64
  {
    var m := SealedSize(p);
    if SealedSize(m) < U64 {
      forall d: nat | d < U64
        ensures GatePasses(Some(d), SealedSizeBound(p)) <==> d <= p
      {
        GatePassesInRange(p, d);
      }
    } else {
      SealedSizeGrows(p);
      SealedSizeGrows(m);
      var d := if m >= U64 then p else m;
      if m >= U64 {
        assert SealedSizeBound(p) == m - U64;
      } else {
        assert SealedSizeBound(m) == SealedSize(m) - U64;
      }
      assert !(GatePasses(Some(d), SealedSizeBound(p)) <==> d <= p);
    }
  }

  /** Every staged size a signed 64-bit file length can express is inside it; and a
      request that declares nothing passes. */
  lemma GateExactForFiles(p: nat)
    requires p < 0x8000_0000_0000_0000
    ensures GateExact(p) && forall max: nat :: GatePasses(None, max)
  {
    GateExactIff(p);
  }
}
