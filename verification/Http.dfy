/** HTTP vocabulary shared by the request pipeline and the response writers, and what they need to
    know about gzip, encryption and SHA-256. */
module Http {
  import opened Options

  type Bytes = seq<bv8>

  /** Header names the code looks at; net/http treats their spelling case-insensitively. */
  datatype Name = ContentType | ContentEncoding | ContentEncryption | AcceptEncoding | HashSHA256 | Other(name: string)

  type Header = map<Name, string>

  /** An absent header reads as the empty string. */
  function Get(h: Header, name: Name): string {
    if name in h then h[name] else ""
  }

  const CONTENT_TYPE_JSON := "application/json"
  const CONTENT_TYPE_HTML := "text/html"
  const ENCODING_GZIP := "gzip"
  const SCHEME := "rsa-aes-gcm"

  const STATUS_OK := 200
  const STATUS_BAD_REQUEST := 400
  const STATUS_INTERNAL_ERROR := 500

  function Lower(ch: char): char {
    if 'A' <= ch <= 'Z' then (ch as int + 32) as char else ch
  }

  function ToLower(s: string): string {
    if s == "" then "" else [Lower(s[0])] + ToLower(s[1..])
  }

  predicate EqualFold(s: string, t: string) {
    |s| == |t| && forall i | 0 <= i < |s| :: Lower(s[i]) == Lower(t[i])
  }

  predicate Contains(s: string, part: string) {
    part <= s || (s != "" && Contains(s[1..], part))
  }

  /** strings.Contains(strings.ToLower(encoding), "gzip") */
  predicate NamesGzip(encoding: string) {
    Contains(ToLower(encoding), ENCODING_GZIP)
  }

  /** The value is the word, given in small letters, with each letter in either case. */
  predicate Spells(value: string, word: string) {
    && |value| == |word|
    && forall i | 0 <= i < |word| ::
         value[i] == word[i] || ('a' <= word[i] <= 'z' && value[i] as int == word[i] as int - 32)
  }

  lemma LowerIs(ch: char, small: char)
    requires !('A' <= small <= 'Z')
    ensures Lower(ch) == small <==> ch == small || ('a' <= small <= 'z' && ch as int == small as int - 32)
  {
  }

  lemma {:induction false} ToLowerAt(s: string)
    ensures |ToLower(s)| == |s| && forall i | 0 <= i < |s| :: ToLower(s)[i] == Lower(s[i])
  {
    if s != "" {
      ToLowerAt(s[1..]);
    }
  }

  predicate StandsAt(s: string, i: nat, part: string) {
    i + |part| <= |s| && forall k | 0 <= k < |part| :: s[i + k] == part[k]
  }

  lemma {:induction false} ContainsIff(s: string, part: string)
    ensures Contains(s, part) <==> exists i: nat :: StandsAt(s, i, part)
  {
    if part <= s {
      assert StandsAt(s, 0, part);
    } else if s != "" {
      ContainsIff(s[1..], part);
      if i: nat :| StandsAt(s[1..], i, part) {
        StandsLater(s, i, part);
        assert StandsAt(s, i + 1, part);
      }
      if i: nat :| StandsAt(s, i, part) {
        assert i > 0;
        StandsLater(s, i - 1, part);
      }
    }
  }

  lemma StandsLater(s: string, i: nat, part: string)
    requires s != ""
    ensures StandsAt(s[1..], i, part) <==> StandsAt(s, i + 1, part)
  {
    if i + 1 + |part| <= |s| {
      forall k | 0 <= k < |part| ensures s[1..][i + k] == part[k] <==> s[i + 1 + k] == part[k] {
      }
    }
  }

  /** The letters g, z, i, p stand at a place of the value, each in either case. */
  predicate GzipAt(value: string, i: nat) {
    && i + 4 <= |value|
    && value[i] in {'g', 'G'} && value[i + 1] in {'z', 'Z'} && value[i + 2] in {'i', 'I'} && value[i + 3] in {'p', 'P'}
  }

  lemma GzipLowered(value: string, i: nat)
    ensures StandsAt(ToLower(value), i, ENCODING_GZIP) <==> GzipAt(value, i)
  {
    ToLowerAt(value);
    var low := ToLower(value);
    if i + 4 <= |value| {
      var z := ENCODING_GZIP;
      assert z[0] == 'g' && z[1] == 'z' && z[2] == 'i' && z[3] == 'p';
      assert StandsAt(low, i, z)
        <==> low[i + 0] == 'g' && low[i + 1] == 'z' && low[i + 2] == 'i' && low[i + 3] == 'p';
    }
  }

  /** What counts as naming gzip: those letters anywhere in the value. */
  lemma NamesGzipIff(value: string)
    ensures NamesGzip(value) <==> exists i: nat :: GzipAt(value, i)
  {
    ContainsIff(ToLower(value), ENCODING_GZIP);
    forall i: nat ensures StandsAt(ToLower(value), i, ENCODING_GZIP) <==> GzipAt(value, i) {
      GzipLowered(value, i);
    }
  }

  lemma NamesGzipFacts()
    ensures NamesGzip(ENCODING_GZIP) && !NamesGzip("")
  {
    NamesGzipIff(ENCODING_GZIP);
    NamesGzipIff("");
    assert GzipAt(ENCODING_GZIP, 0);
  }

  function Flatten(parts: seq<Bytes>): Bytes {
    if parts == [] then [] else Flatten(parts[..|parts| - 1]) + parts[|parts| - 1]
  }

  lemma FlattenSnoc(parts: seq<Bytes>, p: Bytes)
    ensures Flatten(parts + [p]) == Flatten(parts) + p
  {
    assert (parts + [p])[..|parts|] == parts;
  }

  lemma FlattenOne(p: Bytes)
    ensures Flatten([p]) == p
  {
    assert [p][..0] == [] && Flatten([]) == [] && [] + p == p;
  }

  type PublicKey = int
  type PrivateKey = int

  /** The library functions. Emitted: what a gzip.Writer has passed on after some writes; Closed: all it
      has passed on once it is closed as well. Seal: encryption.Encrypt with a given choice of random numbers,
      unless it fails, as it does for a key too small for the padding. */
  datatype Codec = Codec(
    emitted: seq<Bytes> -> Bytes,
    closed: seq<Bytes> -> Bytes,
    gzipHeader: Bytes -> bool,
    gunzip: Bytes -> Option<Bytes>,
    canSeal: (PublicKey, nat) -> bool,
    seal: (PublicKey, nat, Bytes) -> Bytes,
    open: (PrivateKey, Bytes) -> Option<Bytes>,
    matches: (PrivateKey, PublicKey) -> bool,
    digest: Bytes -> string)
  {
    /** A gzip stream grows by appending, has its header out with the first write, and decompresses to
        what was written, however the writes were cut. */
    ghost predicate GzipLaws() {
      && emitted([]) == []
      && (forall ws: seq<Bytes>, p :: emitted(ws) <= emitted(ws + [p]) && emitted(ws + [p]) != [])
      && (forall ws: seq<Bytes> :: emitted(ws) <= closed(ws) && closed(ws) != [])
      && (forall ws: seq<Bytes> :: gzipHeader(closed(ws)) && gunzip(closed(ws)) == Some(Flatten(ws)))
      && (forall b: Bytes :: gunzip(b).Some? ==> gzipHeader(b))
    }

    /** Only the matching private key opens a sealed body; being a JSON object, it is not a gzip stream. */
    ghost predicate SealLaws() {
      && (forall sk, pk, rnd, b :: matches(sk, pk) ==> open(sk, seal(pk, rnd, b)) == Some(b))
      && (forall sk, pk, rnd, b :: !matches(sk, pk) ==> open(sk, seal(pk, rnd, b)) == None)
      && (forall pk, rnd, b :: !gzipHeader(seal(pk, rnd, b)))
    }

    ghost predicate Laws() {
      GzipLaws() && SealLaws() && forall b :: digest(b) != ""
    }

    /** hash.CalcHash: no key, no signature. */
    function CalcHash(body: Bytes, key: Bytes): string {
      if key == [] then "" else digest(body + key)
    }
  }
}
