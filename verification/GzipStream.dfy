/**
 Compressed exchanges end to end: the server's compressing response writer over a shared pool of gzip
 writers and the client that undoes it, and the compressed request the other way.
 */
module GzipStream {
  import opened Common
  import opened GzipHeader
  import opened ObjPool
  import opened Strings

  newtype byte = x: int | 0 <= x < 256

  type Bytes = seq<byte>

  /** compress/gzip: what a writer emits between Reset and Close, and what a reader makes of it. */
  datatype Gzip = Gzip(compress: Bytes -> Bytes, decompress: Bytes -> Option<Bytes>)

  /** A stream is never empty, and reading it gives back what was written. */
  ghost predicate Lawful(gz: Gzip) {
    forall data: Bytes :: gz.compress(data) != [] && gz.decompress(gz.compress(data)) == Some(data)
  }

  // ---------------------------------------------------------------- values

  /**
   What the client receives; encoding is the Content-Encoding that was set when the header went out.
   The status is None until a header has gone out that is not merely informational.
   */
  datatype Response = Response(status: Option<int>, headerCalls: nat, encoding: string, body: Bytes)

  /** What the handler does with its response writer. */
  datatype Call = Write(data: Bytes) | WriteHeader(status: int)

  /** The compressing writer between Get and Close; plain is what the gzip writer has been given. */
  datatype Session = Session(headerWritten: bool, statusCode: int, response: Response, plain: Bytes)

  const START: Session := Session(false, 0, Response(None, 0, "", []), [])

  predicate IsSuccess(status: int) { 200 <= status < 300 }

  /** net/http sends these at once and waits for the real header. */
  predicate IsInformational(status: int) { 100 <= status < 200 && status != 101 }

  /** net/http drops the bodies of the other statuses. */
  predicate BodyAllowed(status: int) { !(100 <= status < 200) && status != 204 && status != 304 }

  function WithHeader(r: Response, status: int, encoding: string): Response {
    if IsInformational(status) then r.(headerCalls := r.headerCalls + 1)
    else r.(status := Some(status), headerCalls := r.headerCalls + 1, encoding := encoding)
  }

  /** A write without a header makes net/http send status 200 first. */
  function WithBody(r: Response, data: Bytes, encoding: string): Response {
    var t := if r.status.None? then r.(status := Some(200), encoding := encoding) else r;
    if BodyAllowed(t.status.value) then t.(body := t.body + data) else t
  }

  function SendHeader(s: Session, status: int): Session {
    if s.headerWritten then s
    else Session(true, status,
                 WithHeader(s.response, status, if IsSuccess(status) then "gzip" else s.response.encoding), s.plain)
  }

  function Step(s: Session, call: Call): Session {
    match call
    case WriteHeader(status) => SendHeader(s, status)
    case Write(data) =>
      var t := SendHeader(s, 200);
      t.(plain := t.plain + data)
  }

  function Steps(s: Session, calls: seq<Call>): Session
    decreases |calls|
  {
    if calls == [] then s else Steps(Step(s, calls[0]), calls[1..])
  }

  /** Closing the gzip writer emits the stream. */
  function Finish(gz: Gzip, s: Session): Response {
    WithBody(s.response, gz.compress(s.plain), s.response.encoding)
  }

  function Decompress(gz: Gzip, data: Bytes): Option<Bytes> {
    if data == [] then Some(data) else gz.decompress(data)
  }

  /** The client's body: None is an error. */
  function ProcessResponse(gz: Gzip, r: Response): Option<Bytes> {
    if ClientAccepts(r.encoding) then Decompress(gz, r.body) else Some(r.body)
  }

  function Data(call: Call): Bytes { if call.Write? then call.data else [] }

  /** All that the handler wrote, in order. */
  function Written(calls: seq<Call>): Bytes {
    if calls == [] then []
    else Data(calls[0]) + Written(calls[1..])
  }

  /** The status of the first call. */
  function FirstStatus(calls: seq<Call>): int
    requires calls != []
  {
    if calls[0].WriteHeader? then calls[0].status else 200
  }

  lemma StepAfterHeader(s: Session, call: Call)
    requires s.headerWritten
    ensures Step(s, call) == s.(plain := s.plain + Data(call))
  {
    assert s.plain + [] == s.plain;
  }

  lemma {:induction false} StepsFrom(s: Session, calls: seq<Call>)
    requires s.headerWritten
    ensures Steps(s, calls) == s.(plain := s.plain + Written(calls))
    decreases |calls|
  {
    if calls == [] {
      assert s.plain + [] == s.plain;
    } else {
      StepAfterHeader(s, calls[0]);
      StepsFrom(Step(s, calls[0]), calls[1..]);
      assert s.plain + (Data(calls[0]) + Written(calls[1..])) == s.plain + Data(calls[0]) + Written(calls[1..]);
    }
  }

  lemma EncodingsRead()
    ensures ClientAccepts("gzip") && !ClientAccepts("") && ServerAccepts("gzip") && !ServerAccepts("")
  {
    SplitSingle("gzip");
    TrimRightIs("gzip", 4);
    assert ToLower("gzip") == "gzip" && TrimLeft("gzip", IsBlank) == "gzip";
    assert ClientMatches(Split("gzip", ',')[0]);
    assert TrimLeft("gzip", IsSpace) == "gzip" && ElementMatches(Split("gzip", ',')[0]);
    ContainsIn("gzip", GZIP, 0);
    assert Split("", ',') == [""] && TrimSpace(ToLower("")) == "";
  }

  lemma SessionAfter(calls: seq<Call>)
    requires calls != []
    ensures var status := FirstStatus(calls);
            Steps(START, calls) ==
              Session(true, status, WithHeader(START.response, status, if IsSuccess(status) then "gzip" else ""),
                      Written(calls))
  {
    var s := Step(START, calls[0]);
    StepsFrom(s, calls[1..]);
    assert s.plain + Written(calls[1..]) == Written(calls);
  }

  /** The status that goes out: that of the first call, unless it is informational or there is none. */
  function FinalStatus(calls: seq<Call>): int {
    if calls == [] || IsInformational(FirstStatus(calls)) then 200 else FirstStatus(calls)
  }

  /** The status with which the header announces gzip. */
  predicate Announced(calls: seq<Call>) { calls != [] && IsSuccess(FirstStatus(calls)) }

  /** For every sequence of calls, what has been sent when the writer is closed. */
  lemma FinishedResponse(gz: Gzip, calls: seq<Call>)
    ensures Finish(gz, Steps(START, calls)) ==
              Response(Some(FinalStatus(calls)), if calls == [] then 0 else 1, if Announced(calls) then "gzip" else "",
                       if BodyAllowed(FinalStatus(calls)) then gz.compress(Written(calls)) else [])
  {
    if calls != [] {
      SessionAfter(calls);
    } else {
      assert Written(calls) == [];
    }
    assert [] + gz.compress(Written(calls)) == gz.compress(Written(calls));
  }

  /**
   For every sequence of calls followed by Close: at most one header call goes out, with the status of
   the first call; and the client gets exactly what was written if there was a call, the status is 2xx
   and it allows a body. Where it does not, the client gets nothing; otherwise the header does not
   announce gzip and the client takes the raw stream for the body.
   */
  lemma ResponseRoundTrip(gz: Gzip, calls: seq<Call>)
    requires Lawful(gz)
    ensures var r := Finish(gz, Steps(START, calls));
            && r.headerCalls == (if calls == [] then 0 else 1)
            && r.status == Some(FinalStatus(calls))
            && ProcessResponse(gz, r) ==
                 if !BodyAllowed(FinalStatus(calls)) then Some([])
                 else if Announced(calls) then Some(Written(calls))
                 else Some(gz.compress(Written(calls)))
  {
    FinishedResponse(gz, calls);
    EncodingsRead();
  }

  /**
   Where compression changes the data, the body survives exactly under this condition: one that was
   announced and is allowed does, and one that is not allowed does when it is empty.
   */
  lemma ResponseSurvivesExactly(gz: Gzip, calls: seq<Call>)
    requires Lawful(gz) && gz.compress(Written(calls)) != Written(calls)
    ensures ProcessResponse(gz, Finish(gz, Steps(START, calls))) == Some(Written(calls))
            <==> if BodyAllowed(FinalStatus(calls)) then Announced(calls) else Written(calls) == []
  {
    ResponseRoundTrip(gz, calls);
  }

  /**
   The same in numbers: what goes out after Close is announced as gzip exactly when the first call is a
   Write or has a status from 200 to 299; its status is the first call's, or 200 if there is none or it was
   informational; and it has a body unless that status is 101, 204 or 304.
   */
  lemma ResponseInNumbers(gz: Gzip, calls: seq<Call>)
    requires Lawful(gz)
    ensures var r := Finish(gz, Steps(START, calls));
            && (r.encoding == "gzip" <==>
                  calls != [] && (calls[0].Write? || 200 <= calls[0].status <= 299))
            && (r.encoding == "" || r.encoding == "gzip")
            && r.status == Some(if calls == [] || calls[0].Write? then 200
                                else if 100 <= calls[0].status <= 199 && calls[0].status != 101 then 200
                                else calls[0].status)
            && (r.body == [] <==> calls != [] && calls[0].WriteHeader? && calls[0].status in {101, 204, 304})
  {
    FinishedResponse(gz, calls);
  }

  // ---------------------------------------------------------------- requests

  /** The agent's encoding of a body: short bodies are sent as they are, without the header. */
  function EncodeRequest(gz: Gzip, useGzip: bool, minSize: nat, body: Bytes): (Bytes, string) {
    if useGzip && |body| >= minSize
    then (if body == [] then body else gz.compress(body), "gzip")
    else (body, "")
  }

  /** The server reads through a gzip reader when the header says so; an empty stream is an error. */
  function DecodeRequest(gz: Gzip, data: Bytes, encoding: string): Option<Bytes> {
    if ServerAccepts(encoding) then (if data == [] then None else gz.decompress(data)) else Some(data)
  }

  /** A request body is read back as it was, except the empty one when even that is to be compressed. */
  lemma RequestRoundTrip(gz: Gzip, useGzip: bool, minSize: nat, body: Bytes)
    requires Lawful(gz)
    ensures var (data, encoding) := EncodeRequest(gz, useGzip, minSize, body);
            && (encoding == "gzip" <==> useGzip && minSize <= |body|)
            && (encoding == "gzip" && body != [] ==> data == gz.compress(body))
            && (encoding != "gzip" ==> data == body && encoding == "")
    ensures var (data, encoding) := EncodeRequest(gz, useGzip, minSize, body);
            DecodeRequest(gz, data, encoding) == Some(body) <==> !(useGzip && minSize == 0 && body == [])
  {
    EncodingsRead();
  }

  // ---------------------------------------------------------------- objects

  class ResponseWriter {
    var contentEncoding: string // in the header map
    var sent: Response

    constructor (contentEncoding: string)
      ensures this.contentEncoding == contentEncoding && sent == Response(None, 0, contentEncoding, [])
    {
      this.contentEncoding := contentEncoding;
      sent := Response(None, 0, contentEncoding, []);
    }

    method SetContentEncoding(value: string)
      modifies this
      ensures contentEncoding == value && sent == old(sent)
    {
      contentEncoding := value;
    }

    method WriteHeader(status: int)
      modifies this
      ensures contentEncoding == old(contentEncoding)
      ensures sent == WithHeader(old(sent), status, contentEncoding)
    {
      sent := sent.(headerCalls := sent.headerCalls + 1);
      if 100 <= status < 200 && status != 101 {
        return;
      }
      sent := sent.(status := Some(status), encoding := contentEncoding);
    }

    method Write(data: Bytes)
      modifies this
      ensures contentEncoding == old(contentEncoding)
      ensures sent == WithBody(old(sent), data, contentEncoding)
    {
      if sent.status.None? {
        sent := sent.(status := Some(200), encoding := contentEncoding);
      }
      if BodyAllowed(sent.status.value) {
        sent := sent.(body := sent.body + data);
      }
    }
  }

  /** A gzip writer: what it was given since it was last reset. A null sink discards. */
  class GzipWriter {
    var sink: ResponseWriter?
    var plain: Bytes

    constructor ()
      ensures sink == null && plain == []
    {
      sink, plain := null, [];
    }

    method Reset(w: ResponseWriter?)
      modifies this
      ensures sink == w && plain == []
    {
      sink, plain := w, [];
    }

    method Write(data: Bytes)
      modifies this`plain
      ensures plain == old(plain) + data
    {
      plain := plain + data;
    }
  }

  class CompressWriter {
    const w: ResponseWriter
    const pool: Pool<GzipWriter>
    var zw: GzipWriter?
    var statusCode: int
    var headerWritten: bool

    /** The writer has not been closed, and what it has got from the pool is its own. */
    ghost predicate Open()
      reads this, w, pool, zw
    {
      && zw != null && zw.sink == w && pool.Valid() && zw in pool.held
      && (!headerWritten ==> w.sent == START.response && w.contentEncoding == "")
      && w.contentEncoding == w.sent.encoding
    }

    ghost function View(): Session
      reads this, w, zw
      requires zw != null
    {
      Session(headerWritten, statusCode, w.sent, zw.plain)
    }

    constructor (w: ResponseWriter, zw: GzipWriter, pool: Pool<GzipWriter>)
      requires zw.sink == w && zw.plain == [] && pool.Valid() && zw in pool.held
      requires w.contentEncoding == "" && w.sent == START.response
      ensures this.w == w && this.zw == zw && this.pool == pool
      ensures Open() && View() == START
    {
      this.w, this.zw, this.pool := w, zw, pool;
      statusCode, headerWritten := 0, false;
    }

    method WriteHeader(status: int)
      requires Open()
      modifies this`statusCode, this`headerWritten, w
      ensures Open() && zw == old(zw) && headerWritten
      ensures View() == Step(old(View()), Call.WriteHeader(status))
    {
      if headerWritten {
        return;
      }
      headerWritten := true;
      statusCode := status;
      if 200 <= status < 300 {
        w.SetContentEncoding("gzip");
      }
      w.WriteHeader(status);
    }

    method Write(data: Bytes)
      requires Open()
      modifies this`statusCode, this`headerWritten, w, zw
      ensures Open() && zw == old(zw) && headerWritten
      ensures View() == Step(old(View()), Call.Write(data))
    {
      if !headerWritten {
        WriteHeader(200);
      }
      zw.Write(data);
    }

    /**
     The first Close emits the stream and puts the gzip writer back, reset, exactly once; any further
     Close changes nothing.
     */
    method Close(gz: Gzip)
      requires zw != null ==> Open()
      modifies this`zw, w, zw, pool
      ensures zw == null && headerWritten == old(headerWritten)
      ensures old(zw) == null ==> w.sent == old(w.sent) && pool.free == old(pool.free) && pool.held == old(pool.held)
      ensures old(zw) != null ==>
                && w.sent == Finish(gz, old(View()))
                && pool.Valid()
                && pool.free == old(pool.free) + [old(zw)] && pool.held == old(pool.held) - {old(zw)}
                && old(zw).sink == null && old(zw).plain == []
    {
      if zw != null {
        w.Write(gz.compress(zw.plain));
        zw.Reset(null);
        pool.Put(zw);
        zw := null;
      }
    }
  }

  /** Wraps the writer when the client accepts gzip and the response is not encoded yet. */
  method CompressResponse(w: ResponseWriter, acceptEncoding: string, pool: Pool<GzipWriter>)
    returns (cw: CompressWriter?)
    requires pool.Valid() && w.sent.headerCalls == 0 && w.sent.status.None? && w.sent.body == []
    requires w.contentEncoding == w.sent.encoding
    modifies pool, pool.free
    ensures pool.Valid()
    ensures cw != null <==> w.contentEncoding == "" && ServerAccepts(acceptEncoding)
    ensures cw == null ==> pool.free == old(pool.free) && pool.held == old(pool.held)
    ensures cw != null ==>
              && fresh(cw) && cw.Open() && cw.w == w && cw.pool == pool && cw.View() == START
              && cw.zw !in old(pool.held) && pool.held == old(pool.held) + {cw.zw}
  {
    if w.contentEncoding != "" {
      return null;
    }
    var accepted := IsGzipEncoding(acceptEncoding);
    if !accepted {
      return null;
    }
    var made := new GzipWriter();
    var zw := pool.Get(made);
    zw.Reset(w);
    cw := new CompressWriter(w, zw, pool);
  }
}
