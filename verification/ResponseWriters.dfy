/** The Server's response writers: the signing buffer (internal/server/transport/http/middleware/hash.go)
    under the compressing writer (internal/server/transport/http/middleware/gzip.go). */
module ResponseWriters {
  import opened Options
  import opened Http

  // ---------------------------------------------------------------------------
  // What the writers do, on values
  // ---------------------------------------------------------------------------

  /** A status of zero is one not set yet. */
  datatype Response = Response(header: Header, status: int, body: Bytes)

  /** Zipping: the writes handed to the gzip.Writer so far. */
  datatype Mode = Undecided | Plain | Zipping(writes: seq<Bytes>)

  datatype Writer = Writer(buffer: Response, mode: Mode)

  /** What a handler can do to the response it is given. */
  datatype Event = SetHeader(name: Name, value: string) | WriteHeader(status: int) | Write(part: Bytes)

  const EMPTY := Response(map[], 0, [])

  function SetStatus(r: Response, status: int): Response {
    if r.status == 0 then r.(status := status) else r
  }

  function Append(r: Response, part: Bytes): Response {
    SetStatus(r, STATUS_OK).(body := r.body + part)
  }

  predicate Compressible(contentType: string) {
    CONTENT_TYPE_JSON <= ToLower(contentType) || CONTENT_TYPE_HTML <= ToLower(contentType)
  }

  /** Compressed are JSON and HTML, with whatever parameters, in letters of either case. */
  lemma CompressibleIff(contentType: string)
    ensures Compressible(contentType)
       <==> || (|contentType| >= 16 && Spells(contentType[..16], "application/json"))
            || (|contentType| >= 9 && Spells(contentType[..9], "text/html"))
  {
    ToLowerAt(contentType);
    LowPrefix(contentType, ToLower(contentType), CONTENT_TYPE_JSON);
    LowPrefix(contentType, ToLower(contentType), CONTENT_TYPE_HTML);
  }

  lemma LowPrefix(value: string, low: string, word: string)
    requires |low| == |value| && (forall i | 0 <= i < |low| :: low[i] == Lower(value[i]))
    requires forall i | 0 <= i < |word| :: !('A' <= word[i] <= 'Z')
    ensures word <= low <==> |word| <= |value| && Spells(value[..|word|], word)
  {
    if |word| <= |value| {
      forall i | 0 <= i < |word|
        ensures low[i] == word[i] <==> value[i] == word[i] || ('a' <= word[i] <= 'z' && value[i] as int == word[i] as int - 32)
      {
        LowerIs(value[i], word[i]);
      }
    }
  }

  function Decide(w: Writer): Writer {
    if !w.mode.Undecided? then w
    else if Compressible(Get(w.buffer.header, ContentType)) then
      Writer(w.buffer.(header := w.buffer.header[ContentEncoding := ENCODING_GZIP]), Zipping([]))
    else Writer(w.buffer, Plain)
  }

  /** The gzip.Writer passes on what it has to, which may be nothing. */
  function Forward(r: Response, was: Bytes, now: Bytes): Response
    requires was <= now
  {
    if was == now then r else Append(r, now[|was|..])
  }

  ghost function Step(c: Codec, w: Writer, e: Event): Writer
    requires c.GzipLaws()
  {
    match e
    case SetHeader(name, value) => w.(buffer := w.buffer.(header := w.buffer.header[name := value]))
    case WriteHeader(status) => var d := Decide(w); d.(buffer := SetStatus(d.buffer, status))
    case Write(part) =>
      var d := if w.mode.Undecided? then Decide(w).(buffer := SetStatus(Decide(w).buffer, STATUS_OK)) else w;
      if d.mode.Zipping? then
        Writer(Forward(d.buffer, c.emitted(d.mode.writes), c.emitted(d.mode.writes + [part])), Zipping(d.mode.writes + [part]))
      else d.(buffer := Append(d.buffer, part))
  }

  ghost function Steps(c: Codec, w: Writer, es: seq<Event>): Writer
    requires c.GzipLaws()
  {
    if es == [] then w else Step(c, Steps(c, w, es[..|es| - 1]), es[|es| - 1])
  }

  ghost function Closed(c: Codec, w: Writer): Response
    requires c.GzipLaws()
  {
    if w.mode.Zipping? then Forward(w.buffer, c.emitted(w.mode.writes), c.closed(w.mode.writes)) else w.buffer
  }

  // ---------------------------------------------------------------------------
  // What a handler's calls mean, whoever carries them out
  // ---------------------------------------------------------------------------

  /** The first status set, a write setting 200; zero when there is none. */
  function FirstStatus(es: seq<Event>): int {
    if es == [] then 0
    else
      var before := FirstStatus(es[..|es| - 1]);
      if before != 0 then before
      else match es[|es| - 1]
        case SetHeader(_, _) => 0
        case WriteHeader(status) => status
        case Write(_) => STATUS_OK
  }

  function FinalStatus(es: seq<Event>): int {
    if FirstStatus(es) == 0 then STATUS_OK else FirstStatus(es)
  }

  function Written(es: seq<Event>): Bytes {
    if es == [] then []
    else if es[|es| - 1].Write? then Written(es[..|es| - 1]) + es[|es| - 1].part
    else Written(es[..|es| - 1])
  }

  function Headers(es: seq<Event>): Header {
    if es == [] then map[]
    else if es[|es| - 1].SetHeader? then Headers(es[..|es| - 1])[es[|es| - 1].name := es[|es| - 1].value]
    else Headers(es[..|es| - 1])
  }

  /** The number of calls before the first that sends something. */
  function Preamble(es: seq<Event>): (n: nat)
    ensures n <= |es|
    ensures forall i | 0 <= i < n :: es[i].SetHeader?
    ensures n < |es| ==> !es[n].SetHeader?
  {
    if es == [] then 0
    else
      var n := Preamble(es[..|es| - 1]);
      if n == |es| - 1 && es[n].SetHeader? then |es| else n
  }

  /** Whether the body is compressed: the Content-Type at the first call that sends something decides. */
  predicate Compresses(es: seq<Event>) {
    Preamble(es) < |es| && Compressible(Get(Headers(es[..Preamble(es)]), ContentType))
  }

  // ---------------------------------------------------------------------------
  // The writers meet it
  // ---------------------------------------------------------------------------

  /** What has been written so far, and the status it implies. */
  ghost predicate Tracks(c: Codec, w: Writer, es: seq<Event>) {
    && w.buffer.status == FirstStatus(es)
    && match w.mode
       case Undecided => Preamble(es) == |es| && w.buffer == Response(Headers(es), 0, []) && Written(es) == []
       case Plain => Preamble(es) < |es| && !Compresses(es) && w.buffer.body == Written(es) && w.buffer.header == Headers(es)
       case Zipping(ws) =>
         && Compresses(es) && Flatten(ws) == Written(es) && w.buffer.body == c.emitted(ws)
         && (ws != [] ==> w.buffer.status != 0)
         && ContentEncoding in w.buffer.header
         && w.buffer.header - {ContentEncoding} == Headers(es) - {ContentEncoding}
         && (!SetsEncoding(es) ==> w.buffer.header[ContentEncoding] == ENCODING_GZIP)
  }

  predicate SetsEncoding(es: seq<Event>) {
    exists i | 0 <= i < |es| :: es[i].SetHeader? && es[i].name == ContentEncoding
  }

  lemma PreambleSnoc(es: seq<Event>, e: Event)
    ensures Preamble(es) < |es| ==> Preamble(es + [e]) == Preamble(es)
    ensures Preamble(es) == |es| ==> Preamble(es + [e]) == if e.SetHeader? then |es| + 1 else |es|
  {
    assert (es + [e])[..|es|] == es;
  }

  lemma CompressesSnoc(es: seq<Event>, e: Event)
    ensures Preamble(es) < |es| ==> (Compresses(es + [e]) <==> Compresses(es))
    ensures Preamble(es) == |es| && !e.SetHeader? ==> (Compresses(es + [e]) <==> Compressible(Get(Headers(es), ContentType)))
  {
    PreambleSnoc(es, e);
    var n := Preamble(es);
    assert (es + [e])[..n] == es[..n] && es[..|es|] == es;
  }

  lemma SnocUnfolds(es: seq<Event>, e: Event)
    ensures (es + [e])[..|es|] == es && (es + [e])[|es|] == e
    ensures SetsEncoding(es + [e]) <==> SetsEncoding(es) || (e.SetHeader? && e.name == ContentEncoding)
  {
    if SetsEncoding(es) {
      var i :| 0 <= i < |es| && es[i].SetHeader? && es[i].name == ContentEncoding;
      assert (es + [e])[i] == es[i];
    }
    if e.SetHeader? && e.name == ContentEncoding {
      assert (es + [e])[|es|] == e;
    }
  }

  lemma NoEncodingYet(es: seq<Event>)
    requires ContentEncoding in Headers(es)
    ensures SetsEncoding(es)
  {
    if es != [] {
      var front, last := es[..|es| - 1], es[|es| - 1];
      if ContentEncoding in Headers(front) {
        NoEncodingYet(front);
        SnocUnfolds(front, last);
        assert es == front + [last];
      }
    }
  }

  lemma UpdateBoth(h: Header, g: Header, name: Name, value: string)
    requires h - {ContentEncoding} == g - {ContentEncoding}
    ensures h[name := value] - {ContentEncoding} == g[name := value] - {ContentEncoding}
  {
    var h', g' := h[name := value] - {ContentEncoding}, g[name := value] - {ContentEncoding};
    forall k ensures (k in h' <==> k in g') && (k in h' ==> h'[k] == g'[k]) {
      assert k != ContentEncoding ==> (k in h - {ContentEncoding} <==> k in h);
      assert k != ContentEncoding ==> (k in g - {ContentEncoding} <==> k in g);
    }
  }

  lemma SetHeaderTracks(c: Codec, w: Writer, es: seq<Event>, e: Event)
    requires c.GzipLaws() && Tracks(c, w, es) && e.SetHeader?
    ensures Tracks(c, Step(c, w, e), es + [e])
  {
    PreambleSnoc(es, e);
    CompressesSnoc(es, e);
    SnocUnfolds(es, e);
    if w.mode.Zipping? {
      UpdateBoth(w.buffer.header, Headers(es), e.name, e.value);
    }
  }

  lemma DecideTracks(c: Codec, w: Writer, es: seq<Event>, status: int)
    requires c.GzipLaws() && Tracks(c, w, es)
    ensures Tracks(c, Step(c, w, WriteHeader(status)), es + [WriteHeader(status)])
  {
    PreambleSnoc(es, WriteHeader(status));
    CompressesSnoc(es, WriteHeader(status));
    SnocUnfolds(es, WriteHeader(status));
  }

  lemma FirstWriteTracks(c: Codec, w: Writer, es: seq<Event>, part: Bytes)
    requires c.GzipLaws() && Tracks(c, w, es) && w.mode.Undecided?
    ensures Tracks(c, Step(c, w, Write(part)), es + [Write(part)])
  {
    PreambleSnoc(es, Write(part));
    CompressesSnoc(es, Write(part));
    SnocUnfolds(es, Write(part));
    var d := Decide(w).(buffer := SetStatus(Decide(w).buffer, STATUS_OK));
    if d.mode.Zipping? {
      assert [] + [part] == [part];
      assert c.emitted([]) <= c.emitted([] + [part]) && c.emitted([] + [part]) != [];
      FlattenSnoc([], part);
    }
  }

  lemma PlainWriteTracks(c: Codec, w: Writer, es: seq<Event>, part: Bytes)
    requires c.GzipLaws() && Tracks(c, w, es) && w.mode.Plain?
    ensures Tracks(c, Step(c, w, Write(part)), es + [Write(part)])
  {
    PreambleSnoc(es, Write(part));
    CompressesSnoc(es, Write(part));
    SnocUnfolds(es, Write(part));
  }

  lemma ForwardIs(r: Response, was: Bytes, now: Bytes)
    requires was <= now && r.body == was && (r.status == 0 ==> was == [] && now != [])
    ensures Forward(r, was, now) == SetStatus(r, STATUS_OK).(body := now)
  {
  }

  lemma ZippedWriteTracks(c: Codec, w: Writer, es: seq<Event>, part: Bytes)
    requires c.GzipLaws() && Tracks(c, w, es) && w.mode.Zipping?
    ensures Tracks(c, Step(c, w, Write(part)), es + [Write(part)])
  {
    PreambleSnoc(es, Write(part));
    CompressesSnoc(es, Write(part));
    SnocUnfolds(es, Write(part));
    var ws := w.mode.writes;
    FlattenSnoc(ws, part);
    ForwardIs(w.buffer, c.emitted(ws), c.emitted(ws + [part]));
  }

  lemma WriteTracks(c: Codec, w: Writer, es: seq<Event>, part: Bytes)
    requires c.GzipLaws() && Tracks(c, w, es)
    ensures Tracks(c, Step(c, w, Write(part)), es + [Write(part)])
  {
    match w.mode {
      case Undecided => FirstWriteTracks(c, w, es, part);
      case Plain => PlainWriteTracks(c, w, es, part);
      case Zipping(_) => ZippedWriteTracks(c, w, es, part);
    }
  }

  lemma {:induction false} StepsTrack(c: Codec, es: seq<Event>)
    requires c.GzipLaws()
    ensures Tracks(c, Steps(c, Writer(EMPTY, Undecided), es), es)
    decreases |es|
  {
    if es != [] {
      var front, last := es[..|es| - 1], es[|es| - 1];
      var w := Steps(c, Writer(EMPTY, Undecided), front);
      StepsTrack(c, front);
      match last {
        case SetHeader(_, _) => SetHeaderTracks(c, w, front, last);
        case WriteHeader(status) => DecideTracks(c, w, front, status);
        case Write(part) => WriteTracks(c, w, front, part);
      }
      assert es == front + [last];
    }
  }

  /** The mode chosen at the first call that sends something is never changed by later calls. */
  lemma {:induction false} ModeNeverChanges(c: Codec, w: Writer, es: seq<Event>)
    requires c.GzipLaws() && !w.mode.Undecided?
    ensures var v := Steps(c, w, es);
            if w.mode.Plain? then v.mode.Plain? else v.mode.Zipping? && w.mode.writes <= v.mode.writes
    decreases |es|
  {
    if es != [] {
      ModeNeverChanges(c, w, es[..|es| - 1]);
    }
  }

  // ---------------------------------------------------------------------------
  // The objects
  // ---------------------------------------------------------------------------

  /** hashResponseWriter keeps the whole response until it is signed. */
  class HashResponseWriter {
    var header: Header
    var body: Bytes
    var statusCode: int

    ghost function State(): Response
      reads this
    {
      Response(header, statusCode, body)
    }

    constructor ()
      ensures State() == EMPTY
    {
      header, body, statusCode := map[], [], 0;
    }

    method SetHeader(name: Name, value: string)
      modifies this
      ensures State() == old(State()).(header := old(header)[name := value])
    {
      header := header[name := value];
    }

    method Write(part: Bytes)
      modifies this
      ensures State() == Append(old(State()), part)
    {
      if statusCode == 0 {
        statusCode := STATUS_OK;
      }
      body := body + part;
    }

    method WriteHeader(status: int)
      modifies this
      ensures State() == SetStatus(old(State()), status)
    {
      if statusCode == 0 {
        statusCode := status;
      }
    }
  }

  /** compress/gzip's Writer, as far as the response can tell: what it passes on and when. */
  class GzipWriter {
    const codec: Codec
    const w: HashResponseWriter
    var writes: seq<Bytes>

    constructor (codec: Codec, w: HashResponseWriter)
      ensures this.codec == codec && this.w == w && writes == []
    {
      this.codec, this.w, writes := codec, w, [];
    }

    method Write(part: Bytes)
      requires codec.GzipLaws()
      modifies this, w
      ensures writes == old(writes) + [part]
      ensures w.State() == Forward(old(w.State()), codec.emitted(old(writes)), codec.emitted(writes))
    {
      var was, now := codec.emitted(writes), codec.emitted(writes + [part]);
      if was != now {
        w.Write(now[|was|..]);
      }
      writes := writes + [part];
    }

    method Close()
      requires codec.GzipLaws()
      modifies w
      ensures w.State() == Forward(old(w.State()), codec.emitted(writes), codec.closed(writes))
    {
      var was, now := codec.emitted(writes), codec.closed(writes);
      if was != now {
        w.Write(now[|was|..]);
      }
    }
  }

  /** The active writer: none yet, the response itself, or zw. */
  datatype Target = Unset | Raw | Zip

  class CompressWriter {
    const codec: Codec
    const w: HashResponseWriter
    var zw: GzipWriter?
    var writer: Target

    ghost predicate Valid()
      reads this
    {
      && codec.GzipLaws()
      && (writer.Zip? <==> zw != null)
      && (zw != null ==> zw.w == w && zw.codec == codec)
    }

    ghost function State(): Writer
      requires Valid()
      reads this, w, zw
    {
      Writer(w.State(), if writer.Unset? then Undecided else if writer.Raw? then Plain else Zipping(zw.writes))
    }

    constructor (codec: Codec, w: HashResponseWriter)
      requires codec.GzipLaws()
      ensures Valid() && this.w == w && this.codec == codec && zw == null
      ensures State() == Writer(w.State(), Undecided)
    {
      this.codec, this.w, zw, writer := codec, w, null, Unset;
    }

    method InitWriter()
      requires Valid()
      modifies this, w
      ensures Valid() && (zw != old(zw) ==> fresh(zw))
      ensures State() == Decide(old(State()))
    {
      if !writer.Unset? {
        return;
      }
      if Compressible(Get(w.header, ContentType)) {
        w.SetHeader(ContentEncoding, ENCODING_GZIP);
        zw := new GzipWriter(codec, w);
        writer := Zip;
        return;
      }
      writer := Raw;
    }

    method SetHeader(name: Name, value: string)
      requires Valid()
      modifies w
      ensures Valid() && State() == Step(codec, old(State()), Event.SetHeader(name, value))
    {
      w.SetHeader(name, value);
    }

    method WriteHeader(status: int)
      requires Valid()
      modifies this, w
      ensures Valid() && (zw != old(zw) ==> fresh(zw))
      ensures State() == Step(codec, old(State()), Event.WriteHeader(status))
    {
      if writer.Unset? {
        InitWriter();
      }
      w.WriteHeader(status);
    }

    method Write(part: Bytes)
      requires Valid()
      modifies this, w, zw
      ensures Valid() && (zw != old(zw) ==> fresh(zw))
      ensures State() == Step(codec, old(State()), Event.Write(part))
    {
      if writer.Unset? {
        WriteHeader(STATUS_OK);
      }
      if writer.Zip? {
        zw.Write(part);
      } else {
        w.Write(part);
      }
    }

    method Close()
      requires Valid()
      modifies w
      ensures w.State() == Closed(codec, old(State()))
    {
      if zw != null {
        zw.Close();
      }
    }
  }

  // ---------------------------------------------------------------------------
  // The whole response
  // ---------------------------------------------------------------------------

  /** The response a client gets for a handler's calls: status, body and signature as they must be. */
  ghost predicate Answers(c: Codec, hashKey: Bytes, acceptEncoding: string, es: seq<Event>, sent: Response) {
    var zipped := NamesGzip(acceptEncoding) && Compresses(es);
    && sent.status == FinalStatus(es)
    && (if zipped then c.gunzip(sent.body) == Some(Written(es)) else sent.body == Written(es))
    && Get(sent.header, HashSHA256) == c.digest(sent.body + hashKey)
    && (!SetsEncoding(es) ==> Get(sent.header, ContentEncoding) == if zipped then ENCODING_GZIP else "")
    && sent.header - {ContentEncoding, HashSHA256} == Headers(es) - {ContentEncoding, HashSHA256}
  }

  lemma RemoveBoth(h: Header, g: Header, value: string)
    requires h - {ContentEncoding} == g - {ContentEncoding}
    ensures h[HashSHA256 := value] - {ContentEncoding, HashSHA256} == g - {ContentEncoding, HashSHA256}
  {
    var h', g' := h[HashSHA256 := value] - {ContentEncoding, HashSHA256}, g - {ContentEncoding, HashSHA256};
    forall k ensures (k in h' <==> k in g') && (k in h' ==> h'[k] == g'[k]) {
      assert k != ContentEncoding ==> (k in h - {ContentEncoding} <==> k in h);
      assert k != ContentEncoding ==> (k in g - {ContentEncoding} <==> k in g);
    }
  }

  /** What WithHash sends once the handler is done. */
  function Signed(c: Codec, hashKey: Bytes, r: Response): Response {
    var header := if c.CalcHash(r.body, hashKey) == "" then r.header
                  else r.header[HashSHA256 := c.CalcHash(r.body, hashKey)];
    Response(header, if r.status == 0 then STATUS_OK else r.status, r.body)
  }

  lemma PlainAnswers(c: Codec, hashKey: Bytes, acceptEncoding: string, es: seq<Event>, r: Response)
    requires c.Laws() && hashKey != []
    requires !NamesGzip(acceptEncoding) || !Compresses(es)
    requires r == Response(Headers(es), FirstStatus(es), Written(es))
    ensures Answers(c, hashKey, acceptEncoding, es, Signed(c, hashKey, r))
  {
    RemoveBoth(r.header, r.header, c.digest(r.body + hashKey));
    if ContentEncoding in Headers(es) {
      NoEncodingYet(es);
    }
  }

  lemma ZippedAnswers(c: Codec, hashKey: Bytes, acceptEncoding: string, es: seq<Event>, w: Writer)
    requires c.Laws() && hashKey != [] && NamesGzip(acceptEncoding)
    requires w.mode.Zipping? && Tracks(c, w, es)
    ensures Answers(c, hashKey, acceptEncoding, es, Signed(c, hashKey, Closed(c, w)))
  {
    var r := Closed(c, w);
    ForwardIs(w.buffer, c.emitted(w.mode.writes), c.closed(w.mode.writes));
    RemoveBoth(r.header, Headers(es), c.digest(r.body + hashKey));
  }

  lemma CompressedAnswers(c: Codec, hashKey: Bytes, acceptEncoding: string, es: seq<Event>)
    requires c.Laws() && hashKey != [] && NamesGzip(acceptEncoding)
    ensures Answers(c, hashKey, acceptEncoding, es, Signed(c, hashKey, Closed(c, Steps(c, Writer(EMPTY, Undecided), es))))
  {
    var w := Steps(c, Writer(EMPTY, Undecided), es);
    StepsTrack(c, es);
    if w.mode.Zipping? {
      ZippedAnswers(c, hashKey, acceptEncoding, es, w);
    } else {
      PlainAnswers(c, hashKey, acceptEncoding, es, w.buffer);
    }
  }

  /** A handler's calls through WithHash over WithGzip: gzip.go wraps the buffer only for a client that
      accepts gzip and closes it after the handler; hash.go then signs and sends what was buffered. */
  method Serve(codec: Codec, hashKey: Bytes, acceptEncoding: string, es: seq<Event>) returns (sent: Response)
    requires codec.Laws() && hashKey != []
    ensures Answers(codec, hashKey, acceptEncoding, es, sent)
  {
    var hw := new HashResponseWriter();
    if NamesGzip(acceptEncoding) {
      var cw := new CompressWriter(codec, hw);
      HandleCompressed(cw, es);
      cw.Close();
      CompressedAnswers(codec, hashKey, acceptEncoding, es);
    } else {
      HandlePlain(hw, es);
      PlainAnswers(codec, hashKey, acceptEncoding, es, hw.State());
    }
    var responseHash := codec.CalcHash(hw.body, hashKey);
    if responseHash != "" {
      hw.SetHeader(HashSHA256, responseHash);
    }
    sent := Response(hw.header, if hw.statusCode == 0 then STATUS_OK else hw.statusCode, hw.body);
  }

  method HandlePlain(w: HashResponseWriter, es: seq<Event>)
    requires w.State() == EMPTY
    modifies w
    ensures w.State() == Response(Headers(es), FirstStatus(es), Written(es))
  {
    for i := 0 to |es|
      invariant w.State() == Response(Headers(es[..i]), FirstStatus(es[..i]), Written(es[..i]))
    {
      assert es[..i + 1][..i] == es[..i];
      match es[i] {
        case SetHeader(name, value) => w.SetHeader(name, value);
        case WriteHeader(status) => w.WriteHeader(status);
        case Write(part) => w.Write(part);
      }
    }
    assert es[..|es|] == es;
  }

  method HandleCompressed(w: CompressWriter, es: seq<Event>)
    requires w.Valid() && w.zw == null
    modifies w, w.w
    ensures w.Valid() && w.State() == Steps(w.codec, old(w.State()), es)
    ensures w.zw == null || fresh(w.zw)
  {
    for i := 0 to |es|
      invariant w.Valid() && w.State() == Steps(w.codec, old(w.State()), es[..i])
      invariant w.zw == null || fresh(w.zw)
    {
      assert es[..i + 1][..i] == es[..i];
      match es[i] {
        case SetHeader(name, value) => w.SetHeader(name, value);
        case WriteHeader(status) => w.WriteHeader(status);
        case Write(part) => w.Write(part);
      }
    }
    assert es[..|es|] == es;
  }

  /** A client decodes by the Content-Encoding it finds. */
  function ClientBody(c: Codec, sent: Response): Option<Bytes> {
    if Get(sent.header, ContentEncoding) == ENCODING_GZIP then c.gunzip(sent.body) else Some(sent.body)
  }

  /** Whether or not a client accepts gzip, it sees the status and the bytes the handler produced,
      and the signature is over the bytes it received. A handler must leave Content-Encoding alone. */
  lemma CompressionIsInvisible(c: Codec, hashKey: Bytes, es: seq<Event>,
                               accept1: string, sent1: Response, accept2: string, sent2: Response)
    requires !SetsEncoding(es)
    requires Answers(c, hashKey, accept1, es, sent1) && Answers(c, hashKey, accept2, es, sent2)
    ensures ClientBody(c, sent1) == ClientBody(c, sent2) == Some(Written(es))
    ensures sent1.status == sent2.status
    ensures Get(sent1.header, HashSHA256) == c.digest(sent1.body + hashKey)
  {
  }
}
