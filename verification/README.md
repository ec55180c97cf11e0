# http-send, modelled in Dafny

http-send exports one function, `send(req, res, body, cb)`, that finishes an
HTTP response. It classifies the body (null, string, pipe-capable stream or
Buffer). It fills in `Content-Type`, `Content-Length` and a checksum `ETag`
without overwriting headers the caller already set. It turns a fresh 2xx
response into a 304. It strips the entity headers and the body from
204/304 responses. Finally it either ends the response (empty or with the
buffered bytes) or pipes the stream into it.

This project states that procedure as one pure function,
`HttpSend.Send(req, presetStatus, headers, body, hasCallback, crc, isFresh)`.
It returns the final status, the final headers, the single transmission
`Action` and the listeners left on the response:

- `Body = Null | Text(bytes) | Buffer(bytes) | Stream(handle)`; a string body
  carries the bytes it encodes to.
- `Action = EndEmpty | EndWith(bytes) | Pipe(handle)`. `EndEmpty` stands for
  `res.end()` and `res.end(null)`, `EndWith` for `res.end('')` and
  `res.end(buffer)`.
- Headers are a map from canonical header name to string value. A header
  counts as set (`!!res.getHeader(name)`) when it is present and not the empty
  string.
- The `fresh` module and `buffer-crc32`'s signed checksum are parameters:
  `isFresh(requestHeaders, responseHeaders)` and `crc(bytes)`, a signed
  32-bit value.
- A preset status of 0 stands for "not set" and becomes 200
  (`res.statusCode || 200`).

The meaning of `Send` is given by five rules in `send.dfy`:

- `PreparedRule`: the headers once the defaults are in.
- `StatusRule`: the 304 decision.
- `StripRule`: what 204/304 removes.
- `ActionRule`: the one transmission.
- `ListenerRule`: the callback on both `finish` and `close`, and the unpipe
  handler.

`Send` ensures all five. `SendProperties.OutcomeUnique` proves that any
outcome meeting them is `Send`'s, so together the rules pin the result down
exactly. The module `Decimal` spells integers the way JavaScript's `String(n)`
does, which is needed for `Content-Length` and `ETag`. A parser shows those
spellings can be read back.

Where the code and its test titles disagree, the model follows the code. The
test at test/send.js:119 is titled "unless 2xx or 303", but index.js:51 checks
only `[200, 300)`. So 303 is never turned into 304
(`SendProperties.NonSuccessStatusKept`).

## Model

| member | source | states |
|---|---|---|
| HttpSend.Classify | index.js:24-36 | null and strings are text/html, streams and buffers application/octet-stream; a stream leaves no buffered payload and vice versa; the payload holds exactly the body's bytes, and is the falsy '' only for a null body |
| HttpSend.Prepare | index.js:38-49 | the headers at the freshness check meet PreparedRule: caller's non-empty Content-Type/Content-Length/ETag kept, otherwise default type, decimal byte length for buffered bodies, quoted checksum ETag for buffered bodies over 1024 bytes; every other header unchanged |
| HttpSend.Send | index.js:13-73 | the outcome meets StatusRule, StripRule, ActionRule and ListenerRule for the prepared headers |
| SendProperties.PreparedRuleUnique | index.js:38-49 | the prepared-header rule determines the header map completely |
| SendProperties.StripRuleUnique | index.js:56-61 | the strip rule determines the final header map completely |
| SendProperties.OutcomeUnique | index.js:13-73 | any outcome meeting the four rules equals Send's outcome (the converse of Send's contract) |
| SendProperties.HeadMatchesOtherMethods | index.js:63-64 | a HEAD request gets the same status and headers as any other method, ends with no body and gets no unpipe handler |
| SendProperties.CallerContentTypeKept | index.js:38-40 | a non-empty caller Content-Type is sent unchanged unless the final status is 204 or 304 |
| SendProperties.EmptyContentTypeReplaced | index.js:38-40 | an empty caller Content-Type counts as absent and is replaced by the body's default type |
| SendProperties.ContentLengthParses | index.js:42-44 | the automatic Content-Length of a buffered body parses back to its exact byte count |
| SendProperties.NullBodyDefaults | index.js:24-44 | a null body gets Content-Length "0" and text/html, never an ETag, and ends with the empty body |
| SendProperties.StreamGetsNoLength | index.js:30-44 | a stream body never gets an automatic Content-Length or ETag |
| SendProperties.ETagParses | index.js:47-49 | the automatic ETag is the quoted decimal checksum of the body's bytes and survives to the output |
| SendProperties.ETagOnlyForLargeBuffers | index.js:47-49 | an ETag that is not the caller's comes only from a buffered body over 1024 bytes with no non-empty caller ETag |
| SendProperties.NonSuccessStatusKept | index.js:51-53 | an effective status outside [200, 300), such as 303 or 400, is sent unchanged |
| SendProperties.FreshSuccessNotModified | index.js:51-61 | a fresh 2xx response becomes 304 without Content-Type, Content-Length, Transfer-Encoding or body, keeping the ETag |
| SendProperties.TransmissionChoice | index.js:63-72 | the stream is piped exactly when the method is not HEAD, the body is a stream and the status is not 204/304; the buffered bytes are written exactly in the non-stream counterpart |
| SendProperties.CallbackOnBothEvents | index.js:14-17 | the callback is registered on both finish and close exactly when given; the unpipe handler exactly when a stream is piped |
| SendProperties.PresetBodilessStrips | test/send.js:73-109 | a caller-set 204 or 304 with a text body and Transfer-Encoding chunked goes out with no entity headers and no body; at most 1024 bytes of text leave no header at all |
| SendProperties.ClientErrorNotRevalidated | test/send.js:119-128 | a 400 whose ETag matches If-None-Match stays 400 and sends its body |
| Decimal.FromNat | index.js:43 | the spelling of a length is non-empty, all digits, without a leading zero unless it is 0 |
| Decimal.FromInt | index.js:48 | the spelling of a checksum starts with '-' exactly for negatives, followed by the spelling of the magnitude |
| Decimal.DigitsValueFromNat | index.js:43 | the digits of a spelled number evaluate back to the number |
| Decimal.ParseFromNat | index.js:43 | parsing the spelling of a natural number gives it back |
| Decimal.ParseFromInt | index.js:48 | parsing the spelling of any integer gives it back |
| Decimal.FromIntInjective | index.js:48 | distinct checksums are spelled as distinct ETags |

## Left out

- Event delivery: the model only records which listeners are registered
  (index.js:14-17, 66-68). When the callback fires, and that it may fire twice,
  is transport behaviour. So is when the stream is unpiped.
- The internals of `fresh` and `buffer-crc32` (index.js:1-2) belong to other
  libraries. They are the parameters `isFresh` and `crc`, so the literal
  ETag in test/send.js:70 is not derived.
- How Node encodes a string into a Buffer is not modelled. A `Text` body
  carries its bytes already encoded.
- Byte transfer is I/O and left out: writing to the socket, the data flow of
  `stream.pipe`, and the HTTP test harness.
- Node stores response headers under lower-cased keys. The model assumes
  canonical header names. Header values that are numbers or arrays are not
  modelled; every value is a string.
- A body that is neither null, a string, nor pipe-capable is taken to be a
  Buffer. Other objects (numbers, plain objects) that the `else` branch would
  also accept are not modelled.
- `res.statusCode` values that are not integers (NaN, undefined) are not
  modelled. An integer 0 is the only "unset" status.
- Decimal.FromNat: matches JavaScript's `String(n)` only below 10^21, where
  JavaScript switches to exponent notation. That bound is far beyond any body
  length.
