/** The way of a request body: gzip, encryption and signature in the Agent's sender
    (internal/agent/transport/http/http_sender.go), and their inverses in the Server's middleware,
    in the order internal/server/transport/http/router/router.go installs them. */
module RequestPipeline {
  import opened Options
  import opened Http
  import opened Retry

  // ---------------------------------------------------------------------------
  // The request
  // ---------------------------------------------------------------------------

  /** Broken: the connection fails while the body is read. Unzipping: a compressReader over the bytes. */
  datatype Body = Broken | Raw(bytes: Bytes) | Unzipping(bytes: Bytes)

  datatype Fields = Fields(header: Header, body: Body, contentLength: int)

  /** What reading the body to its end gives. */
  function ReadAll(c: Codec, body: Body): Option<Bytes> {
    match body
    case Broken => None
    case Raw(bytes) => Some(bytes)
    case Unzipping(bytes) => c.gunzip(bytes)
  }

  // ---------------------------------------------------------------------------
  // The Agent
  // ---------------------------------------------------------------------------

  function Prepared(c: Codec, publicKey: Option<PublicKey>, rnd: nat, json: Bytes): Bytes {
    var zipped := c.closed([json]);
    if publicKey.Some? then c.seal(publicKey.value, rnd, zipped) else zipped
  }

  function AgentHeader(encrypted: bool, hashValue: string): Header {
    var h: Header := map[ContentType := CONTENT_TYPE_JSON, ContentEncoding := ENCODING_GZIP];
    var h := if encrypted then h[ContentEncryption := SCHEME] else h;
    if hashValue != "" then h[HashSHA256 := hashValue] else h
  }

  function AgentRequest(c: Codec, hashKey: Bytes, publicKey: Option<PublicKey>, rnd: nat, json: Bytes): Fields {
    var body := Prepared(c, publicKey, rnd, json);
    Fields(AgentHeader(publicKey.Some?, c.CalcHash(body, hashKey)), Raw(body), |body|)
  }

  class HTTPSender {
    const hashKey: Bytes
    const publicKey: Option<PublicKey>

    constructor (hashKey: Bytes, publicKey: Option<PublicKey>)
      ensures this.hashKey == hashKey && this.publicKey == publicKey
    {
      this.hashKey, this.publicKey := hashKey, publicKey;
    }

    predicate Sendable(c: Codec, json: Option<Bytes>, rnd: nat, realIP: bool) {
      json.Some? && (publicKey.Some? ==> c.canSeal(publicKey.value, rnd)) && realIP
    }

    /** The body is built once: every attempt posts the same request. post is the network's answer to
        a request at an attempt; json and the local address may be missing, and encryption may fail. */
    method Send(c: Codec, json: Option<Bytes>, rnd: nat, realIP: bool,
                post: (Fields, nat) -> Option<Error>, during: nat -> Option<Error>)
      returns (err: Option<Error>, t: Trace)
      ensures !Sendable(c, json, rnd, realIP) ==> err.Some? && t.results == []
      ensures Sendable(c, json, rnd, realIP) ==>
                && (err.None? <==> t.err.None?)
                && Follows(World((i: nat) => post(AgentRequest(c, hashKey, publicKey, rnd, json.value), i), NeverCancelled, during),
                           IsRetriableSendError, DELAYS, t)
    {
      t := Trace([], [], None);
      if json.None? {
        return Some(OtherError), t;
      }
      var body := c.closed([json.value]);
      if publicKey.Some? {
        if !c.canSeal(publicKey.value, rnd) {
          return Some(Wrapped(OtherError)), t;
        }
        body := c.seal(publicKey.value, rnd, body);
      }
      var hashValue := c.CalcHash(body, hashKey);
      if !realIP {
        return Some(Wrapped(OtherError)), t;
      }
      var header: Header := map[ContentType := CONTENT_TYPE_JSON, ContentEncoding := ENCODING_GZIP];
      if publicKey.Some? {
        header := header[ContentEncryption := SCHEME];
      }
      if hashValue != "" {
        header := header[HashSHA256 := hashValue];
      }
      var rq := Fields(header, Raw(body), |body|);
      assert rq == AgentRequest(c, hashKey, publicKey, rnd, json.value);
      err, t := PostWithRetry(World((i: nat) => post(rq, i), NeverCancelled, during));
      assert forall i | 0 <= i < |t.results| :: t.results[i] == post(rq, i);
      if err.Some? {
        err := Some(Wrapped(err.value));
      }
    }
  }

  // ---------------------------------------------------------------------------
  // The Server's middleware
  // ---------------------------------------------------------------------------

  datatype ServerConfig = ServerConfig(hashKey: Bytes, privateKey: Option<PrivateKey>)

  /** The request as the next handler finds it, or the status the client gets instead. */
  type Passed = Result<Fields, int>

  function PassHash(c: Codec, hashKey: Bytes, rq: Fields): Passed {
    var body := ReadAll(c, rq.body);
    if body.None? then Err(STATUS_BAD_REQUEST)
    else if Get(rq.header, HashSHA256) != "" && Get(rq.header, HashSHA256) != c.CalcHash(body.value, hashKey) then
      Err(STATUS_BAD_REQUEST)
    else Ok(rq.(body := Raw(body.value)))
  }

  function PassDecryption(c: Codec, privateKey: PrivateKey, rq: Fields): Passed {
    var scheme := Get(rq.header, ContentEncryption);
    if scheme == "" then Ok(rq)
    else if !EqualFold(scheme, SCHEME) then Err(STATUS_BAD_REQUEST)
    else
      var body := ReadAll(c, rq.body);
      if body.None? || c.open(privateKey, body.value).None? then Err(STATUS_BAD_REQUEST)
      else
        var plain := c.open(privateKey, body.value).value;
        Ok(Fields(rq.header - {ContentEncryption}, Raw(plain), |plain|))
  }

  /** gzip.NewReader looks at the stream's header only; a damaged stream shows when it is read. */
  function PassGzip(c: Codec, rq: Fields): Passed {
    if !NamesGzip(Get(rq.header, ContentEncoding)) then Ok(rq)
    else
      var body := ReadAll(c, rq.body);
      if body.None? || !c.gzipHeader(body.value) then Err(STATUS_INTERNAL_ERROR)
      else Ok(rq.(body := Unzipping(body.value)))
  }

  class Request {
    var header: Header
    var body: Body
    var contentLength: int

    ghost function State(): Fields
      reads this
    {
      Fields(header, body, contentLength)
    }

    constructor (rq: Fields)
      ensures State() == rq
    {
      header, body, contentLength := rq.header, rq.body, rq.contentLength;
    }
  }

  method WithHash(c: Codec, hashKey: Bytes, r: Request) returns (refused: Option<int>)
    modifies r
    ensures PassHash(c, hashKey, old(r.State())) == if refused.Some? then Err(refused.value) else Ok(r.State())
  {
    var body := ReadAll(c, r.body);
    if body.None? {
      return Some(STATUS_BAD_REQUEST);
    }
    var expectedHash := Get(r.header, HashSHA256);
    if expectedHash != "" {
      var actualHash := c.CalcHash(body.value, hashKey);
      if expectedHash != actualHash {
        return Some(STATUS_BAD_REQUEST);
      }
    }
    r.body := Raw(body.value);
    return None;
  }

  method WithDecryption(c: Codec, privateKey: PrivateKey, r: Request) returns (refused: Option<int>)
    modifies r
    ensures PassDecryption(c, privateKey, old(r.State())) == if refused.Some? then Err(refused.value) else Ok(r.State())
  {
    var scheme := Get(r.header, ContentEncryption);
    if scheme == "" {
      return None;
    }
    if !EqualFold(scheme, SCHEME) {
      return Some(STATUS_BAD_REQUEST);
    }
    var encryptedBody := ReadAll(c, r.body);
    if encryptedBody.None? {
      return Some(STATUS_BAD_REQUEST);
    }
    var decryptedBody := c.open(privateKey, encryptedBody.value);
    if decryptedBody.None? {
      return Some(STATUS_BAD_REQUEST);
    }
    r.body := Raw(decryptedBody.value);
    r.contentLength := |decryptedBody.value|;
    r.header := r.header - {ContentEncryption};
    return None;
  }

  method WithGzip(c: Codec, r: Request) returns (refused: Option<int>)
    modifies r
    ensures PassGzip(c, old(r.State())) == if refused.Some? then Err(refused.value) else Ok(r.State())
  {
    if NamesGzip(Get(r.header, ContentEncoding)) {
      var compressed := ReadAll(c, r.body);
      if compressed.None? || !c.gzipHeader(compressed.value) {
        return Some(STATUS_INTERNAL_ERROR);
      }
      r.body := Unzipping(compressed.value);
    }
    return None;
  }

  function PassFrom(c: Codec, cfg: ServerConfig, rq: Fields): Passed {
    var passed := if cfg.privateKey.Some? then PassDecryption(c, cfg.privateKey.value, rq) else Ok(rq);
    if passed.Err? then passed else PassGzip(c, passed.get)
  }

  function Pass(c: Codec, cfg: ServerConfig, rq: Fields): Passed {
    var checked := if cfg.hashKey != [] then PassHash(c, cfg.hashKey, rq) else Ok(rq);
    if checked.Err? then checked else PassFrom(c, cfg, checked.get)
  }

  /** router.New installs the hash check only with a key and decryption only with a private key.
      The handler gets what it reads, or the client a status and the handler is not run. */
  method Route(c: Codec, cfg: ServerConfig, r: Request) returns (seen: Result<Option<Bytes>, int>)
    modifies r
    ensures seen == HandlerSees(c, cfg, old(r.State()))
  {
    if cfg.hashKey != [] {
      var refused := WithHash(c, cfg.hashKey, r);
      if refused.Some? {
        return Err(refused.value);
      }
    }
    if cfg.privateKey.Some? {
      var refused := WithDecryption(c, cfg.privateKey.value, r);
      if refused.Some? {
        return Err(refused.value);
      }
    }
    var refused := WithGzip(c, r);
    if refused.Some? {
      return Err(refused.value);
    }
    return Ok(ReadAll(c, r.body));
  }

  function HandlerSees(c: Codec, cfg: ServerConfig, rq: Fields): Result<Option<Bytes>, int> {
    match Pass(c, cfg, rq)
    case Ok(passed) => Ok(ReadAll(c, passed.body))
    case Err(status) => Err(status)
  }

  // ---------------------------------------------------------------------------
  // End to end
  // ---------------------------------------------------------------------------

  /** The signing keys make the same signature, or one side has none. */
  predicate SameSignature(c: Codec, agentKey: Bytes, serverKey: Bytes, body: Bytes) {
    agentKey == [] || serverKey == [] || c.digest(body + agentKey) == c.digest(body + serverKey)
  }

  /** The Agent encrypts for nobody, or for the Server's private key. */
  predicate CanOpen(c: Codec, publicKey: Option<PublicKey>, privateKey: Option<PrivateKey>) {
    publicKey.None? || (privateKey.Some? && c.matches(privateKey.value, publicKey.value))
  }

  lemma HashVerdict(c: Codec, agentKey: Bytes, publicKey: Option<PublicKey>, rnd: nat, json: Bytes, serverKey: Bytes)
    requires c.Laws() && serverKey != []
    ensures var rq := AgentRequest(c, agentKey, publicKey, rnd, json);
            PassHash(c, serverKey, rq) == if SameSignature(c, agentKey, serverKey, Prepared(c, publicKey, rnd, json))
                                          then Ok(rq) else Err(STATUS_BAD_REQUEST)
  {
  }

  lemma AgentHeaderIs(encrypted: bool, hashValue: string)
    ensures var h := AgentHeader(encrypted, hashValue);
            && Get(h, ContentEncoding) == ENCODING_GZIP && Get(h - {ContentEncryption}, ContentEncoding) == ENCODING_GZIP
            && Get(h, ContentEncryption) == (if encrypted then SCHEME else "")
            && Get(h, HashSHA256) == hashValue
  {
  }

  lemma Unzips(c: Codec, rq: Fields, json: Bytes)
    requires c.Laws() && Get(rq.header, ContentEncoding) == ENCODING_GZIP && rq.body == Raw(c.closed([json]))
    ensures PassGzip(c, rq) == Ok(rq.(body := Unzipping(c.closed([json]))))
  {
    NamesGzipFacts();
  }

  lemma SealOpens(c: Codec, pk: PublicKey, rnd: nat, b: Bytes)
    requires c.SealLaws()
    ensures !c.gzipHeader(c.seal(pk, rnd, b))
    ensures forall sk :: c.open(sk, c.seal(pk, rnd, b)) == if c.matches(sk, pk) then Some(b) else None
  {
  }

  lemma Unwraps(c: Codec, agentKey: Bytes, publicKey: Option<PublicKey>, rnd: nat, json: Bytes, cfg: ServerConfig)
    requires c.Laws()
    ensures var passed := PassFrom(c, cfg, AgentRequest(c, agentKey, publicKey, rnd, json));
            if CanOpen(c, publicKey, cfg.privateKey) then passed.Ok? && passed.get.body == Unzipping(c.closed([json]))
            else passed == Err(if cfg.privateKey.Some? then STATUS_BAD_REQUEST else STATUS_INTERNAL_ERROR)
  {
    var rq := AgentRequest(c, agentKey, publicKey, rnd, json);
    var zipped := c.closed([json]);
    AgentHeaderIs(publicKey.Some?, c.CalcHash(Prepared(c, publicKey, rnd, json), agentKey));
    if publicKey.None? {
      Unzips(c, rq, json);
      return;
    }
    SealOpens(c, publicKey.value, rnd, zipped);
    if cfg.privateKey.Some? {
      if c.matches(cfg.privateKey.value, publicKey.value) {
        Unzips(c, Fields(rq.header - {ContentEncryption}, Raw(zipped), |zipped|), json);
      }
    } else {
      NamesGzipFacts();
    }
  }

  /** For every batch, signing keys and key pairs: the handler reads the very JSON the Agent built exactly
      when the signatures agree and the Server can open what the Agent sealed. */
  lemma BodyIsDelivered(c: Codec, agentKey: Bytes, publicKey: Option<PublicKey>, rnd: nat, json: Bytes, cfg: ServerConfig)
    requires c.Laws()
    ensures HandlerSees(c, cfg, AgentRequest(c, agentKey, publicKey, rnd, json)) == Ok(Some(json))
       <==> && SameSignature(c, agentKey, cfg.hashKey, Prepared(c, publicKey, rnd, json))
            && CanOpen(c, publicKey, cfg.privateKey)
  {
    if cfg.hashKey != [] {
      HashVerdict(c, agentKey, publicKey, rnd, json, cfg.hashKey);
    }
    Unwraps(c, agentKey, publicKey, rnd, json, cfg);
    FlattenOne(json);
  }

  /** Otherwise the handler is not run: 400 for a signature or a private key that does not fit, but 500
      when the Server has no private key, for it then takes the sealed body for a gzip stream. */
  lemma MismatchIsRefused(c: Codec, agentKey: Bytes, publicKey: Option<PublicKey>, rnd: nat, json: Bytes, cfg: ServerConfig)
    requires c.Laws()
    requires !SameSignature(c, agentKey, cfg.hashKey, Prepared(c, publicKey, rnd, json))
          || !CanOpen(c, publicKey, cfg.privateKey)
    ensures HandlerSees(c, cfg, AgentRequest(c, agentKey, publicKey, rnd, json))
         == Err(if SameSignature(c, agentKey, cfg.hashKey, Prepared(c, publicKey, rnd, json)) && cfg.privateKey.None?
                then STATUS_INTERNAL_ERROR else STATUS_BAD_REQUEST)
  {
    if cfg.hashKey != [] {
      HashVerdict(c, agentKey, publicKey, rnd, json, cfg.hashKey);
    }
    Unwraps(c, agentKey, publicKey, rnd, json, cfg);
  }

  /** The simplest such input: an Agent with a public key, a Server with no key at all, any batch. */
  lemma SealedWithoutKey(c: Codec, pk: PublicKey, rnd: nat, json: Bytes)
    requires c.Laws()
    ensures HandlerSees(c, ServerConfig([], None), AgentRequest(c, [], Some(pk), rnd, json)) == Err(STATUS_INTERNAL_ERROR)
  {
    MismatchIsRefused(c, [], Some(pk), rnd, json, ServerConfig([], None));
  }

  /** A body altered on the way is refused before it is decrypted or unzipped, unless SHA-256 collides. */
  lemma AlteredBodyIsRefused(c: Codec, key: Bytes, publicKey: Option<PublicKey>, rnd: nat, json: Bytes,
                             altered: Bytes, cfg: ServerConfig)
    requires c.Laws() && key != [] && cfg.hashKey == key
    requires c.digest(altered + key) != c.digest(Prepared(c, publicKey, rnd, json) + key)
    ensures HandlerSees(c, cfg, AgentRequest(c, key, publicKey, rnd, json).(body := Raw(altered))) == Err(STATUS_BAD_REQUEST)
  {
  }

  // ---------------------------------------------------------------------------
  // Any request, whoever sent it
  // ---------------------------------------------------------------------------

  /** The request with this header whose body comes whole over the network, or breaks off. */
  function Arriving(header: Header, wire: Option<Bytes>, contentLength: int): Fields {
    Fields(header, if wire.Some? then Raw(wire.value) else Broken, contentLength)
  }

  predicate Has(header: Header, name: Name) {
    name in header && header[name] != ""
  }

  lemma SchemeIs(value: string)
    ensures EqualFold(value, SCHEME) <==> Spells(value, "rsa-aes-gcm")
  {
    assert SCHEME == "rsa-aes-gcm";
  }

  /** A Server without a signing key looks at no signature; one with a key has to read the body, and takes it
      unsigned or with the right signature. */
  predicate SignatureFits(c: Codec, hashKey: Bytes, header: Header, wire: Option<Bytes>) {
    hashKey == []
    || (wire.Some? && (Has(header, HashSHA256) ==> header[HashSHA256] == c.digest(wire.value + hashKey)))
  }

  /** What the body is once it need not be decrypted any more: None if it broke off. */
  function Plain(c: Codec, privateKey: Option<PrivateKey>, header: Header, wire: Option<Bytes>): Option<Bytes> {
    if privateKey.Some? && Has(header, ContentEncryption) && wire.Some? then c.open(privateKey.value, wire.value) else wire
  }

  predicate SealFits(c: Codec, privateKey: Option<PrivateKey>, header: Header, wire: Option<Bytes>) {
    privateKey.None? || !Has(header, ContentEncryption)
    || (Spells(header[ContentEncryption], "rsa-aes-gcm") && Plain(c, privateKey, header, wire).Some?)
  }

  ghost predicate SaysGzip(header: Header) {
    ContentEncoding in header && exists i: nat :: GzipAt(header[ContentEncoding], i)
  }

  ghost predicate GzipFits(c: Codec, header: Header, plain: Option<Bytes>) {
    SaysGzip(header) ==> plain.Some? && c.gzipHeader(plain.value)
  }

  lemma HashSees(c: Codec, hashKey: Bytes, header: Header, wire: Option<Bytes>, contentLength: int)
    requires hashKey != []
    ensures PassHash(c, hashKey, Arriving(header, wire, contentLength))
         == if SignatureFits(c, hashKey, header, wire) then Ok(Arriving(header, wire, contentLength))
            else Err(STATUS_BAD_REQUEST)
  {
  }

  lemma DecryptionSees(c: Codec, privateKey: PrivateKey, header: Header, wire: Option<Bytes>, contentLength: int)
    returns (length: int, rest: Header)
    ensures var plain := Plain(c, Some(privateKey), header, wire);
            PassDecryption(c, privateKey, Arriving(header, wire, contentLength))
            == if SealFits(c, Some(privateKey), header, wire) then Ok(Arriving(rest, plain, length))
               else Err(STATUS_BAD_REQUEST)
    ensures SaysGzip(rest) <==> SaysGzip(header)
  {
    length, rest := contentLength, header;
    if Has(header, ContentEncryption) {
      SchemeIs(header[ContentEncryption]);
      rest := header - {ContentEncryption};
      var plain := Plain(c, Some(privateKey), header, wire);
      length := if plain.Some? then |plain.value| else contentLength;
      assert SaysGzip(rest) <==> SaysGzip(header);
    }
  }

  lemma GzipSees(c: Codec, header: Header, plain: Option<Bytes>, contentLength: int)
    ensures var passed := PassGzip(c, Arriving(header, plain, contentLength));
            if !GzipFits(c, header, plain) then passed == Err(STATUS_INTERNAL_ERROR)
            else passed.Ok? && ReadAll(c, passed.get.body) == if SaysGzip(header) then c.gunzip(plain.value) else plain
  {
    NamesGzipIff(Get(header, ContentEncoding));
  }

  /** For every request: the handler runs if and only if the signature fits, the Server can open the body and what
      is called gzip begins like gzip. It then reads the body's bytes, opened if they were sealed for a Server with
      a private key, and decompressed if gzip is named. Otherwise the client gets 500 if only gzip was wrong, else 400. */
  lemma HandlerSeesIff(c: Codec, cfg: ServerConfig, header: Header, wire: Option<Bytes>, contentLength: int)
    ensures var seen := HandlerSees(c, cfg, Arriving(header, wire, contentLength));
            var plain := Plain(c, cfg.privateKey, header, wire);
            && (seen.Ok? <==> SignatureFits(c, cfg.hashKey, header, wire) && SealFits(c, cfg.privateKey, header, wire)
                              && GzipFits(c, header, plain))
            && (seen.Ok? ==> seen.get == if SaysGzip(header) then c.gunzip(plain.value) else plain)
            && (seen.Err? ==> seen.error == if SignatureFits(c, cfg.hashKey, header, wire)
                                              && SealFits(c, cfg.privateKey, header, wire) then 500 else 400)
  {
    if cfg.hashKey != [] {
      HashSees(c, cfg.hashKey, header, wire, contentLength);
    }
    var plain := Plain(c, cfg.privateKey, header, wire);
    if cfg.privateKey.Some? {
      var length, rest := DecryptionSees(c, cfg.privateKey.value, header, wire, contentLength);
      GzipSees(c, rest, plain, length);
    } else {
      GzipSees(c, header, plain, contentLength);
    }
  }

  /** The rest of what the handler is given: only a body that was opened changes it, to its own length and
      without the name of the encryption. */
  lemma RestOfRequest(c: Codec, cfg: ServerConfig, header: Header, wire: Option<Bytes>, contentLength: int)
    requires Pass(c, cfg, Arriving(header, wire, contentLength)).Ok?
    ensures var passed := Pass(c, cfg, Arriving(header, wire, contentLength)).get;
            if cfg.privateKey.Some? && Has(header, ContentEncryption) then
              && Plain(c, cfg.privateKey, header, wire).Some?
              && passed.contentLength == |Plain(c, cfg.privateKey, header, wire).value|
              && ContentEncryption !in passed.header
              && forall name | name != ContentEncryption :: Get(passed.header, name) == Get(header, name)
            else passed.contentLength == contentLength && passed.header == header
  {
    if cfg.hashKey != [] {
      HashSees(c, cfg.hashKey, header, wire, contentLength);
    }
  }

  /** So a request that is unsigned, not encrypted and not compressed reaches the handler of every Server as it was sent. */
  lemma PlainRequestIsRead(c: Codec, cfg: ServerConfig, header: Header, bytes: Bytes, contentLength: int)
    requires !Has(header, HashSHA256) && !Has(header, ContentEncryption) && !SaysGzip(header)
    ensures HandlerSees(c, cfg, Arriving(header, Some(bytes), contentLength)) == Ok(Some(bytes))
  {
    HandlerSeesIff(c, cfg, header, Some(bytes), contentLength);
  }

  /** A Server with a private key refuses an encryption it does not know, rightly signed or not. */
  lemma UnknownSchemeIsRefused(c: Codec, cfg: ServerConfig, header: Header, wire: Option<Bytes>, contentLength: int)
    requires cfg.privateKey.Some? && Has(header, ContentEncryption) && !Spells(header[ContentEncryption], "rsa-aes-gcm")
    ensures HandlerSees(c, cfg, Arriving(header, wire, contentLength)) == Err(STATUS_BAD_REQUEST)
  {
    HandlerSeesIff(c, cfg, header, wire, contentLength);
  }

  /** Any request that reaches the handler of a Server with a key is unsigned or rightly signed. */
  lemma OnlySignedPass(c: Codec, cfg: ServerConfig, rq: Fields)
    requires cfg.hashKey != [] && HandlerSees(c, cfg, rq).Ok?
    ensures ReadAll(c, rq.body).Some?
    ensures Get(rq.header, HashSHA256) in {"", c.CalcHash(ReadAll(c, rq.body).value, cfg.hashKey)}
  {
  }

  /** A refusal with 400 ends the Agent's sending at once; the 500 of a Server without a private key is
      taken for a passing failure and tried to the end of the delays. */
  lemma RefusalTrace(status: int, op: nat -> Option<Error>, during: nat -> Option<Error>, t: Trace)
    requires status == STATUS_BAD_REQUEST || status == STATUS_INTERNAL_ERROR
    requires forall i :: op(i) == Some(UnexpectedStatus(status)) && during(i).None?
    requires Follows(World(op, NeverCancelled, during), IsRetriableSendError, DELAYS, t)
    ensures |t.results| == if status == STATUS_BAD_REQUEST then 1 else 4
    ensures t.err == Some(UnexpectedStatus(status))
  {
    var n := |t.waits|;
    assert NeverCancelled(n).None? && |t.results| == n + 1 && t.results[n] == op(n);
    assert n > 0 ==> t.results[0] == op(0);
  }
}
