/**
  The `send(req, res, body, cb)` dispatcher of http-send, as one pure function.

  The mutable response of the source becomes an input (the status and headers
  the caller had already set) and an output (the final status and headers,
  the one transmission action, and the listeners registered on the response).
  The two foreign libraries are parameters: `isFresh` (the `fresh` module)
  decides whether the request's validators match the response headers, and
  `crc` is the signed CRC-32 of a byte sequence.
 */
module HttpSend {
  import opened Wrappers
  import Decimal

  type byte = x: int | 0 <= x < 256

  /** A signed 32-bit integer, the range of the signed CRC-32. */
  type Int32 = x: int | -0x8000_0000 <= x < 0x8000_0000

  /** Response or request headers, keyed by canonical header name. */
  type Headers = map<string, string>

  const ContentType: string := "Content-Type"
  const ContentLength: string := "Content-Length"
  const TransferEncoding: string := "Transfer-Encoding"
  const ETag: string := "ETag"

  const TextHtml: string := "text/html"
  const OctetStream: string := "application/octet-stream"

  /** Bodies strictly longer than this many bytes get an automatic ETag. */
  const ETagThreshold: nat := 1024

  /** An opaque reference to a pipe-capable stream. */
  datatype StreamHandle = StreamHandle(id: nat)

  /**
    The body argument, by its run-time shape: null, a string (carried as the
    bytes it encodes to), a Buffer, or anything with a `pipe` method.
   */
  datatype Body = Null | Text(encoded: seq<byte>) | Buffer(data: seq<byte>) | Stream(handle: StreamHandle)

  /**
    The value the source keeps in `body` after classification when it is not
    null: the empty string '' (what a null body becomes) or a Buffer.
   */
  datatype Payload = EmptyString | Bytes(data: seq<byte>) {

    function Length(): nat {
      if EmptyString? then 0 else |data|
    }

    function Content(): seq<byte> {
      if EmptyString? then [] else data
    }

    /** JavaScript truthiness: '' is falsy, every Buffer object is truthy. */
    predicate Truthy() {
      Bytes?
    }
  }

  /** The outcome of classifying the body: default type, and either a buffered payload or a stream. */
  datatype Classified = Classified(contentType: string, payload: Option<Payload>, stream: Option<StreamHandle>)

  datatype Request = Request(verb: string, headers: Headers)

  /** The one transmission step: `res.end()`/`res.end(null)`, `res.end(bytes)`, or `stream.pipe(res)`. */
  datatype Action = EndEmpty | EndWith(data: seq<byte>) | Pipe(handle: StreamHandle)

  datatype Event = Finish | Close

  /** A listener left on the response: the caller's callback on an event, or the unpipe-on-close handler. */
  datatype Listener = Callback(event: Event) | UnpipeOnClose(handle: StreamHandle)

  datatype Outcome = Outcome(status: int, headers: Headers, action: Action, listeners: seq<Listener>)

  /** `!!res.getHeader(name)`: present and not the empty string. */
  predicate IsSet(h: Headers, name: string) {
    name in h && h[name] != ""
  }

  /** The header `name` is in `after` exactly when in `before`, with the same value. */
  predicate Kept(before: Headers, after: Headers, name: string) {
    && (name in after <==> name in before)
    && (name in before ==> after[name] == before[name])
  }

  /** `res.statusCode || 200`: an unset (zero) status means 200. */
  function EffectiveStatus(preset: int): int {
    if preset == 0 then 200 else preset
  }

  predicate IsSuccess(status: int) {
    200 <= status < 300
  }

  /** Statuses whose responses carry no entity. */
  predicate IsBodiless(status: int) {
    status == 204 || status == 304
  }

  /** The bytes a non-stream body stands for; a null body stands for none. */
  function BodyBytes(body: Body): seq<byte>
    requires !body.Stream?
  {
    match body
    case Null => []
    case Text(e) => e
    case Buffer(d) => d
  }

  /** The quoted ETag value the source derives from a buffered body. */
  function ETagValue(data: seq<byte>, crc: seq<byte> -> Int32): string {
    "\"" + Decimal.FromInt(crc(data)) + "\""
  }

  /** Reads an ETag value of the form the dispatcher writes back into its checksum. */
  function ParseETag(s: string): (r: Option<int>)
    ensures r.Some? ==> |s| >= 3 && s[0] == '"' && s[|s| - 1] == '"'
  {
    if |s| >= 2 && s[0] == '"' && s[|s| - 1] == '"' then Decimal.ParseInt(s[1..|s| - 1]) else None
  }

  /** Whether the dispatcher computes an ETag: a buffered body over the threshold and no caller ETag. */
  predicate NeedsETag(h: Headers, body: Body) {
    !body.Stream? && |BodyBytes(body)| > ETagThreshold && !IsSet(h, ETag)
  }

  /** Body classification, in the source's order of precedence. */
  function Classify(body: Body): (c: Classified)
    ensures c.stream.Some? <==> body.Stream?
    ensures c.payload.Some? <==> !body.Stream?
    ensures body.Stream? ==> c.stream == Some(body.handle)
    ensures c.payload.Some? ==> c.payload.value.Content() == BodyBytes(body)
    ensures c.payload.Some? ==> (c.payload.value.Truthy() <==> !body.Null?)
    ensures c.contentType == TextHtml <==> body.Null? || body.Text?
    ensures c.contentType == OctetStream <==> body.Buffer? || body.Stream?
  {
    match body
    case Null => Classified(TextHtml, Some(EmptyString), None)
    case Text(e) => Classified(TextHtml, Some(Bytes(e)), None)
    case Stream(s) => Classified(OctetStream, None, Some(s))
    case Buffer(d) => Classified(OctetStream, Some(Bytes(d)), None)
  }

  /**
    How the headers stand once the defaults are in: a caller's non-empty
    Content-Type, Content-Length or ETag is never replaced; otherwise the
    default type, the decimal length of a buffered body, and the checksum
    ETag of a large buffered body are filled in. Nothing else changes.
   */
  ghost predicate PreparedRule(h: Headers, body: Body, crc: seq<byte> -> Int32, prepared: Headers) {
    && (forall k :: k != ContentType && k != ContentLength && k != ETag ==> Kept(h, prepared, k))
    && ContentType in prepared
    && prepared[ContentType] == (if IsSet(h, ContentType) then h[ContentType] else Classify(body).contentType)
    && (if IsSet(h, ContentLength) || body.Stream? then Kept(h, prepared, ContentLength)
        else ContentLength in prepared && prepared[ContentLength] == Decimal.FromNat(|BodyBytes(body)|))
    && (if NeedsETag(h, body) then ETag in prepared && prepared[ETag] == ETagValue(BodyBytes(body), crc)
        else Kept(h, prepared, ETag))
  }

  /**
    The status the response ends with: a 2xx effective status becomes 304
    exactly when the request is fresh against the prepared headers; any
    other effective status is kept.
   */
  ghost predicate StatusRule(req: Request, presetStatus: int, prepared: Headers,
                             isFresh: (Headers, Headers) -> bool, status: int) {
    var effective := EffectiveStatus(presetStatus);
    && (IsSuccess(effective) ==> (status == 304 <==> isFresh(req.headers, prepared)))
    && (status != 304 ==> status == effective)
    && (!IsSuccess(effective) ==> status == effective)
  }

  /**
    The final headers: for 204 and 304 the entity headers are gone and all
    others kept; for any other status the prepared headers go out as they are.
   */
  ghost predicate StripRule(prepared: Headers, status: int, final: Headers) {
    if IsBodiless(status) then
      && ContentType !in final && ContentLength !in final && TransferEncoding !in final
      && (forall k :: k != ContentType && k != ContentLength && k != TransferEncoding ==> Kept(prepared, final, k))
    else
      final == prepared
  }

  /**
    The transmission: nothing for HEAD and for 204/304, the stream piped for
    a stream body, and the buffered bytes otherwise.
   */
  ghost predicate ActionRule(req: Request, body: Body, status: int, action: Action) {
    if req.verb == "HEAD" || IsBodiless(status) then action == EndEmpty
    else if body.Stream? then action == Pipe(body.handle)
    else action == EndWith(BodyBytes(body))
  }

  /**
    The listeners: the callback on both finish and close (so it may run
    twice), then the unpipe handler when a stream is piped.
   */
  ghost predicate ListenerRule(hasCallback: bool, action: Action, listeners: seq<Listener>) {
    listeners == (if hasCallback then [Callback(Finish), Callback(Close)] else [])
                 + (if action.Pipe? then [UnpipeOnClose(action.handle)] else [])
  }

  /** The headers as they stand when freshness is evaluated: defaults filled in, in the source's order. */
  function Prepare(h: Headers, body: Body, crc: seq<byte> -> Int32): (prepared: Headers)
    ensures PreparedRule(h, body, crc, prepared)
  {
    var c := Classify(body);
    var withType := if IsSet(h, ContentType) then h else h[ContentType := c.contentType];
    var withLength :=
      if !IsSet(withType, ContentLength) && c.payload.Some?
      then withType[ContentLength := Decimal.FromNat(c.payload.value.Length())]
      else withType;
    if c.payload.Some? && c.payload.value.Truthy() && c.payload.value.Length() > ETagThreshold
       && !IsSet(withLength, ETag)
    then withLength[ETag := ETagValue(c.payload.value.data, crc)]
    else withLength
  }

  /** `res.removeHeader` of the three entity headers. */
  function StripEntityHeaders(h: Headers): Headers {
    h - {ContentType, ContentLength, TransferEncoding}
  }

  /**
    The whole dispatch. `presetStatus` is the status the caller set (0 for
    none), `h` the headers the caller set, `hasCallback` whether `cb` was given.
   */
  function Send(req: Request, presetStatus: int, h: Headers, body: Body, hasCallback: bool,
                crc: seq<byte> -> Int32, isFresh: (Headers, Headers) -> bool): (out: Outcome)
    ensures StatusRule(req, presetStatus, Prepare(h, body, crc), isFresh, out.status)
    ensures StripRule(Prepare(h, body, crc), out.status, out.headers)
    ensures ActionRule(req, body, out.status, out.action)
    ensures ListenerRule(hasCallback, out.action, out.listeners)
  {
    var head := req.verb == "HEAD";
    var status := EffectiveStatus(presetStatus);
    var c := Classify(body);
    var prepared := Prepare(h, body, crc);
    var final := if IsSuccess(status) && isFresh(req.headers, prepared) then 304 else status;
    var bodiless := IsBodiless(final);
    var headers := if bodiless then StripEntityHeaders(prepared) else prepared;
    var payload := if bodiless then None else c.payload;
    var stream := if bodiless then None else c.stream;
    var action :=
      if head then EndEmpty
      else if stream.Some? then Pipe(stream.value)
      else if payload.Some? then EndWith(payload.value.Content())
      else EndEmpty;
    var listeners :=
      (if hasCallback then [Callback(Finish), Callback(Close)] else [])
      + (if action.Pipe? then [UnpipeOnClose(action.handle)] else []);
    Outcome(final, headers, action, listeners)
  }
}
