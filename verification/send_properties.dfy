/**
  Properties of the dispatcher: the rules Send meets pin its outcome down
  completely, and the individual promises of http-send follow from them.
 */
module SendProperties {
  import opened Wrappers
  import Decimal
  import opened HttpSend

  /** The prepared-header rule leaves no freedom: two maps meeting it are equal. */
  lemma PreparedRuleUnique(h: Headers, body: Body, crc: seq<byte> -> Int32, a: Headers, b: Headers)
    requires PreparedRule(h, body, crc, a)
    requires PreparedRule(h, body, crc, b)
    ensures a == b
  {
    forall k
      ensures k in a <==> k in b
      ensures k in a ==> a[k] == b[k]
    {
      if k != ContentType && k != ContentLength && k != ETag {
        assert Kept(h, a, k) && Kept(h, b, k);
      }
    }
  }

  /** The strip rule leaves no freedom either. */
  lemma StripRuleUnique(prepared: Headers, status: int, a: Headers, b: Headers)
    requires StripRule(prepared, status, a)
    requires StripRule(prepared, status, b)
    ensures a == b
  {
    if IsBodiless(status) {
      forall k
        ensures k in a <==> k in b
        ensures k in a ==> a[k] == b[k]
      {
        if k != ContentType && k != ContentLength && k != TransferEncoding {
          assert Kept(prepared, a, k) && Kept(prepared, b, k);
        }
      }
    }
  }

  /**
    Any outcome meeting the status, strip, action and listener rules is the
    outcome of Send; with Send's own contract, the rules are exactly its meaning.
   */
  lemma OutcomeUnique(req: Request, presetStatus: int, h: Headers, body: Body, hasCallback: bool,
                      crc: seq<byte> -> Int32, isFresh: (Headers, Headers) -> bool, out: Outcome)
    requires StatusRule(req, presetStatus, Prepare(h, body, crc), isFresh, out.status)
    requires StripRule(Prepare(h, body, crc), out.status, out.headers)
    requires ActionRule(req, body, out.status, out.action)
    requires ListenerRule(hasCallback, out.action, out.listeners)
    ensures out == Send(req, presetStatus, h, body, hasCallback, crc, isFresh)
  {
    var sent := Send(req, presetStatus, h, body, hasCallback, crc, isFresh);
    assert out.status == sent.status;
    StripRuleUnique(Prepare(h, body, crc), out.status, out.headers, sent.headers);
  }

  /**
    A HEAD request gets the very status and headers a request with any other
    method would get; only the transmission differs, and it sends nothing.
   */
  lemma HeadMatchesOtherMethods(verb: string, requestHeaders: Headers, presetStatus: int, h: Headers,
                                body: Body, hasCallback: bool,
                                crc: seq<byte> -> Int32, isFresh: (Headers, Headers) -> bool)
    ensures var head := Send(Request("HEAD", requestHeaders), presetStatus, h, body, hasCallback, crc, isFresh);
            var other := Send(Request(verb, requestHeaders), presetStatus, h, body, hasCallback, crc, isFresh);
            && head.status == other.status
            && head.headers == other.headers
            && head.action == EndEmpty
            && forall i :: 0 <= i < |head.listeners| ==> head.listeners[i].Callback?
  {
  }

  /** A caller's non-empty Content-Type is never overwritten and goes out unless the status is 204 or 304. */
  lemma CallerContentTypeKept(req: Request, presetStatus: int, h: Headers, body: Body, hasCallback: bool,
                              crc: seq<byte> -> Int32, isFresh: (Headers, Headers) -> bool)
    requires IsSet(h, ContentType)
    ensures var out := Send(req, presetStatus, h, body, hasCallback, crc, isFresh);
            !IsBodiless(out.status) ==> ContentType in out.headers && out.headers[ContentType] == h[ContentType]
  {
  }

  /** An empty Content-Type counts as unset: the default type replaces it. */
  lemma EmptyContentTypeReplaced(req: Request, presetStatus: int, h: Headers, body: Body, hasCallback: bool,
                                 crc: seq<byte> -> Int32, isFresh: (Headers, Headers) -> bool)
    requires ContentType in h && h[ContentType] == ""
    ensures var out := Send(req, presetStatus, h, body, hasCallback, crc, isFresh);
            !IsBodiless(out.status) ==>
              && ContentType in out.headers
              && out.headers[ContentType] == (if body.Null? || body.Text? then TextHtml else OctetStream)
  {
  }

  /** The automatic Content-Length of a buffered body reads back as its exact byte count. */
  lemma ContentLengthParses(req: Request, presetStatus: int, h: Headers, body: Body, hasCallback: bool,
                            crc: seq<byte> -> Int32, isFresh: (Headers, Headers) -> bool)
    requires !IsSet(h, ContentLength) && !body.Stream?
    ensures var out := Send(req, presetStatus, h, body, hasCallback, crc, isFresh);
            !IsBodiless(out.status) ==>
              && ContentLength in out.headers
              && Decimal.ParseNat(out.headers[ContentLength]) == Some(|BodyBytes(body)|)
  {
    Decimal.ParseFromNat(|BodyBytes(body)|);
  }

  /** A null body is sent as the empty text: Content-Length "0", type text/html, and no ETag of its own. */
  lemma NullBodyDefaults(req: Request, presetStatus: int, h: Headers, hasCallback: bool,
                         crc: seq<byte> -> Int32, isFresh: (Headers, Headers) -> bool)
    requires !IsSet(h, ContentLength) && !IsSet(h, ContentType)
    ensures var out := Send(req, presetStatus, h, Null, hasCallback, crc, isFresh);
            && Kept(h, out.headers, ETag)
            && (!IsBodiless(out.status) ==>
                  && out.headers[ContentLength] == "0"
                  && out.headers[ContentType] == TextHtml
                  && (req.verb != "HEAD" ==> out.action == EndWith([])))
  {
    assert Decimal.FromNat(0) == "0";
  }

  /** A stream body never gets an automatic Content-Length: the caller's header, if any, is all there is. */
  lemma StreamGetsNoLength(req: Request, presetStatus: int, h: Headers, handle: StreamHandle, hasCallback: bool,
                           crc: seq<byte> -> Int32, isFresh: (Headers, Headers) -> bool)
    ensures var out := Send(req, presetStatus, h, Stream(handle), hasCallback, crc, isFresh);
            && Kept(h, out.headers, ETag)
            && (IsBodiless(out.status) ==> ContentLength !in out.headers)
            && (!IsBodiless(out.status) ==> Kept(h, out.headers, ContentLength))
  {
  }

  /** The automatic ETag reads back as the checksum of exactly the bytes sent, and survives a 304. */
  lemma ETagParses(req: Request, presetStatus: int, h: Headers, body: Body, hasCallback: bool,
                   crc: seq<byte> -> Int32, isFresh: (Headers, Headers) -> bool)
    requires NeedsETag(h, body)
    ensures var out := Send(req, presetStatus, h, body, hasCallback, crc, isFresh);
            && ETag in out.headers
            && ParseETag(out.headers[ETag]) == Some(crc(BodyBytes(body)) as int)
  {
    var out := Send(req, presetStatus, h, body, hasCallback, crc, isFresh);
    var digits := Decimal.FromInt(crc(BodyBytes(body)));
    var tag := ETagValue(BodyBytes(body), crc);
    assert tag[1..|tag| - 1] == digits;
    Decimal.ParseFromInt(crc(BodyBytes(body)));
    assert out.headers[ETag] == tag;
  }

  /**
    An ETag that is not the caller's own was computed by the dispatcher, which
    happens only for a buffered body over 1024 bytes with no non-empty caller ETag.
   */
  lemma ETagOnlyForLargeBuffers(req: Request, presetStatus: int, h: Headers, body: Body, hasCallback: bool,
                                crc: seq<byte> -> Int32, isFresh: (Headers, Headers) -> bool)
    ensures var out := Send(req, presetStatus, h, body, hasCallback, crc, isFresh);
            ETag in out.headers && !(ETag in h && out.headers[ETag] == h[ETag]) ==>
              && !body.Stream?
              && |BodyBytes(body)| > ETagThreshold
              && !IsSet(h, ETag)
              && out.headers[ETag] == ETagValue(BodyBytes(body), crc)
  {
  }

  /** Only a 2xx status can turn into 304; every other status, 303 and 400 among them, is sent as set. */
  lemma NonSuccessStatusKept(req: Request, presetStatus: int, h: Headers, body: Body, hasCallback: bool,
                             crc: seq<byte> -> Int32, isFresh: (Headers, Headers) -> bool)
    requires !IsSuccess(EffectiveStatus(presetStatus))
    ensures Send(req, presetStatus, h, body, hasCallback, crc, isFresh).status == EffectiveStatus(presetStatus)
  {
  }

  /**
    A 2xx response to a fresh request becomes a 304 with no entity headers and
    no body, while every other prepared header, the ETag included, goes out.
   */
  lemma FreshSuccessNotModified(req: Request, presetStatus: int, h: Headers, body: Body, hasCallback: bool,
                                crc: seq<byte> -> Int32, isFresh: (Headers, Headers) -> bool)
    requires IsSuccess(EffectiveStatus(presetStatus))
    requires isFresh(req.headers, Prepare(h, body, crc))
    ensures var out := Send(req, presetStatus, h, body, hasCallback, crc, isFresh);
            && out.status == 304
            && ContentType !in out.headers && ContentLength !in out.headers && TransferEncoding !in out.headers
            && Kept(Prepare(h, body, crc), out.headers, ETag)
            && out.action == EndEmpty
  {
  }

  /**
    Exactly one transmission happens, and which one: the stream is piped only
    for a non-HEAD request with a stream body and a status other than 204/304;
    buffered bytes are written only for a non-HEAD, non-stream, non-204/304 call.
   */
  lemma TransmissionChoice(req: Request, presetStatus: int, h: Headers, body: Body, hasCallback: bool,
                           crc: seq<byte> -> Int32, isFresh: (Headers, Headers) -> bool)
    ensures var out := Send(req, presetStatus, h, body, hasCallback, crc, isFresh);
            && (out.action.Pipe? <==> req.verb != "HEAD" && body.Stream? && !IsBodiless(out.status))
            && (out.action.EndWith? <==> req.verb != "HEAD" && !body.Stream? && !IsBodiless(out.status))
            && (out.action.Pipe? ==> out.action.handle == body.handle)
            && (out.action.EndWith? ==> out.action.data == BodyBytes(body))
  {
  }

  /**
    The callback is registered on both finish and close, so it can run twice;
    the unpipe handler is registered exactly when a stream is piped.
   */
  lemma CallbackOnBothEvents(req: Request, presetStatus: int, h: Headers, body: Body, hasCallback: bool,
                             crc: seq<byte> -> Int32, isFresh: (Headers, Headers) -> bool)
    ensures var out := Send(req, presetStatus, h, body, hasCallback, crc, isFresh);
            && (Callback(Finish) in out.listeners <==> hasCallback)
            && (Callback(Close) in out.listeners <==> hasCallback)
            && forall s :: UnpipeOnClose(s) in out.listeners <==> out.action == Pipe(s)
  {
  }

  /**
    A caller-set 204 or 304 with a text body and `Transfer-Encoding: chunked`
    goes out with no Content-Type, Content-Length or Transfer-Encoding and no body.
   */
  lemma PresetBodilessStrips(presetStatus: int, encoded: seq<byte>,
                             crc: seq<byte> -> Int32, isFresh: (Headers, Headers) -> bool)
    requires presetStatus == 204 || presetStatus == 304
    ensures var out := Send(Request("GET", map[]), presetStatus, map[TransferEncoding := "chunked"],
                            Text(encoded), false, crc, isFresh);
            && IsBodiless(out.status)
            && (|encoded| <= ETagThreshold ==> out.headers == map[])
            && out.headers.Keys <= {ETag}
            && out.action == EndEmpty
  {
  }

  /**
    A 400 whose caller-set ETag matches the request's If-None-Match is not
    revalidated: it stays 400, keeps the ETag and sends the body.
   */
  lemma ClientErrorNotRevalidated(encoded: seq<byte>, crc: seq<byte> -> Int32, isFresh: (Headers, Headers) -> bool)
    ensures var out := Send(Request("GET", map["If-None-Match" := "asd"]), 400, map[ETag := "asd"],
                            Text(encoded), false, crc, isFresh);
            && out.status == 400
            && out.headers[ETag] == "asd"
            && out.headers[ContentType] == TextHtml
            && out.action == EndWith(encoded)
  {
  }
}
