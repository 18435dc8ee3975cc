/**
  Capture of an upstream response (proxy.js:242-249): each data chunk is
  pushed onto a list, and at the end of the stream the chunks are concatenated
  into the raw body and the record of the exchange is built.
 */
module ExchangeCapture {
  import opened Wrappers
  import opened Buffers
  import opened JsonValue
  import opened BodyRenderer
  import opened LogRecord

  class ResponseCapture {
    /** `d`: the chunks received so far, in arrival order. */
    var chunks: seq<Bytes>
    /** The bytes of the response stream so far. */
    ghost var received: Bytes

    ghost predicate Valid()
      reads this
    {
      Concat(chunks) == received
    }

    constructor ()
      ensures Valid() && chunks == [] && received == []
    {
      chunks := [];
      received := [];
    }

    /** The 'data' listener: `d.push(c)`. */
    method OnData(c: Bytes)
      requires Valid()
      modifies this
      ensures Valid()
      ensures chunks == old(chunks) + [c] && received == old(received) + c
    {
      ConcatSnoc(chunks, c);
      chunks := chunks + [c];
      received := received + c;
    }

    /**
      The 'end' listener: `Buffer.concat(d)` becomes the response's raw body,
      which is exactly the bytes received, and the record is built with it.
     */
    method OnEnd(req: Message, proxyRes: Message, env: Env, now: string, parse: Bytes -> Option<Json>)
      returns (rawBody: Bytes, m: LogMessage)
      requires Valid()
      ensures rawBody == received
      ensures m == LogRequestWithResponse(req, proxyRes.(body := Raw(received)), env, now, parse)
      ensures m.response["bodyLength"] == Length(|received|)
    {
      rawBody := Concat(chunks);
      m := LogRequestWithResponse(req, proxyRes.(body := Raw(rawBody)), env, now, parse);
    }
  }
}
