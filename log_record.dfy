/**
  Assembly of the access-log record (proxy.js:62-119) and its serialization to
  one output line (proxy.js:220-226). Environment switches are read from an
  explicit map; `JSON.parse`, `JSON.stringify`, `contentType.parse` and the
  clock are inputs.
 */
module LogRecord {
  import opened Wrappers
  import opened Buffers
  import opened JsonValue
  import opened BodyRenderer
  import Base64
  import Js

  /** `process.env`. */
  type Env = map<string, string>

  /** `process.env[name] === value`; an unset variable is undefined and equals no string. */
  predicate EnvIs(env: Env, name: string, value: string)
  {
    name in env && env[name] == value
  }

  /**
    A captured request or response: its own properties (headers, httpVersion,
    url, method, statusCode, ... and anything else it carries), the raw body
    (`req.body` or `res.rawBody`), and the media type `contentType.parse` finds
    in its Content-Type header (None when that throws). The raw body parser
    (proxy.js:255-259) sets `req.body` to the Buffer read, or to the `{}`
    placeholder when the request has no body.
   */
  datatype Message = Message(fields: map<string, Json>, body: RawBody, contentType: Option<string>)

  /**
    A value in one side of the record: a copied property, the body length,
    undefined (which JSON.stringify leaves out of the line), or the rendered body.
   */
  datatype Entry = Field(value: Json) | Length(n: nat) | UndefinedValue | RenderedBody(body: Body)

  type Record = map<string, Entry>

  /** The properties toLogRequest picks. */
  const RequestAllowList: set<string> := {"headers", "httpVersion", "url", "upgrade", "method"}

  /** The properties toLogResponse picks; a picked "bodyLength" is overwritten. */
  const ResponseAllowList: set<string> := {"headers", "httpVersion", "statusCode", "statusMessage", "bodyLength"}

  /** lodash `pick`: the listed properties the message has, and no others. */
  function Pick(fields: map<string, Json>, keys: set<string>): (picked: Record)
    ensures picked.Keys == fields.Keys * keys
    ensures forall k :: k in picked ==> picked[k] == Field(fields[k])
  {
    map k | k in fields.Keys * keys :: Field(fields[k])
  }

  /** `body ? body.byteLength : 0`; the `{}` placeholder is truthy and has no `byteLength`. */
  function BodyLength(body: RawBody): Entry
  {
    match body
    case Unset => Length(0)
    case Raw(b) => Length(|b|)
    case Placeholder => UndefinedValue
  }

  /**
    JavaScript truthiness of the rendered value; undefined is falsy. The UTF-8
    decoding of a buffer is the empty string exactly when the buffer is empty.
   */
  predicate IsTruthy(r: Option<Body>)
  {
    match r
    case None => false
    case Some(Parsed(v)) => Truthy(v)
    case Some(Utf8Text(raw)) => raw != []
    case Some(Base64Text(e)) => e != ""
    case Some(ObjectText) => true
  }

  /** `r === ''`. */
  predicate IsEmptyString(r: Option<Body>)
  {
    match r
    case None => false
    case Some(Parsed(v)) => v == JString("")
    case Some(Utf8Text(raw)) => raw == []
    case Some(Base64Text(e)) => e == ""
    case Some(ObjectText) => false
  }

  /** `process.env.X_BODY !== 'false' && body && body !== ''`: whether the rendered body goes into the record. */
  predicate Attaches(logBody: bool, r: Option<Body>)
  {
    logBody && IsTruthy(r) && !IsEmptyString(r)
  }

  /** One side of the record: the picked properties, `bodyLength`, and `body` when it is attached. */
  function Assemble(m: Message, allow: set<string>, logBody: bool, decodeJSON: bool, binaryBodyB64: bool,
                    parse: Bytes -> Option<Json>): Record
  {
    var rendered := SerializeValue(m.body, m.contentType, decodeJSON, binaryBodyB64, parse);
    var l := Pick(m.fields, allow)["bodyLength" := BodyLength(m.body)];
    if Attaches(logBody, rendered) then l["body" := RenderedBody(rendered.value)] else l
  }

  /** The body of the request as serializeBody renders it under the REQ_ switches. */
  function RequestBody(req: Message, env: Env, parse: Bytes -> Option<Json>): Option<Body>
  {
    SerializeValue(req.body, req.contentType, EnvIs(env, "REQ_DECODE_JSON", "true"),
                  EnvIs(env, "REQ_BINARY_BODY_B64", "true"), parse)
  }

  /** The body of the response as serializeBody renders it under the RES_ switches. */
  function ResponseBody(res: Message, env: Env, parse: Bytes -> Option<Json>): Option<Body>
  {
    SerializeValue(res.body, res.contentType, EnvIs(env, "RES_DECODE_JSON", "true"),
                  EnvIs(env, "RES_BINARY_BODY_B64", "true"), parse)
  }

  /**
    toLogRequest: only allow-listed properties are copied, `bodyLength` is the
    raw byte length (0 when unset, undefined for the placeholder) whatever the
    rendering, and `body` is
    present exactly when REQ_BODY is not 'false' and the rendering is truthy and
    not the empty string.
   */
  function ToLogRequest(req: Message, env: Env, parse: Bytes -> Option<Json>): (l: Record)
    ensures l.Keys == req.fields.Keys * RequestAllowList + {"bodyLength"}
                      + (if Attaches(!EnvIs(env, "REQ_BODY", "false"), RequestBody(req, env, parse)) then {"body"} else {})
    ensures forall k :: k in req.fields && k in RequestAllowList ==> l[k] == Field(req.fields[k])
    ensures l["bodyLength"] == match req.body
      case Unset => Length(0)
      case Raw(b) => Length(|b|)
      case Placeholder => UndefinedValue
    ensures "body" in l ==> l["body"] == RenderedBody(RequestBody(req, env, parse).value)
  {
    Assemble(req, RequestAllowList, !EnvIs(env, "REQ_BODY", "false"), EnvIs(env, "REQ_DECODE_JSON", "true"),
             EnvIs(env, "REQ_BINARY_BODY_B64", "true"), parse)
  }

  /**
    toLogResponse: the same construction under the RES_ switches and the
    response allow-list; a "bodyLength" property of the response is replaced by
    the raw byte length.
   */
  function ToLogResponse(res: Message, env: Env, parse: Bytes -> Option<Json>): (l: Record)
    ensures l.Keys == res.fields.Keys * (ResponseAllowList - {"bodyLength"}) + {"bodyLength"}
                      + (if Attaches(!EnvIs(env, "RES_BODY", "false"), ResponseBody(res, env, parse)) then {"body"} else {})
    ensures forall k :: k in res.fields && k in ResponseAllowList && k != "bodyLength" ==> l[k] == Field(res.fields[k])
    ensures l["bodyLength"] == match res.body
      case Unset => Length(0)
      case Raw(b) => Length(|b|)
      case Placeholder => UndefinedValue
    ensures "body" in l ==> l["body"] == RenderedBody(ResponseBody(res, env, parse).value)
  {
    Assemble(res, ResponseAllowList, !EnvIs(env, "RES_BODY", "false"), EnvIs(env, "RES_DECODE_JSON", "true"),
             EnvIs(env, "RES_BINARY_BODY_B64", "true"), parse)
  }

  /** The record of one exchange; `timestamp` is its timestamp property, whose key starts with an at sign. */
  datatype LogMessage = LogMessage(timestamp: string, request: Record, response: Record)

  /** logRequestWithResponse, up to the call of `output`; `now` is `new Date().toISOString()`. */
  function LogRequestWithResponse(req: Message, res: Message, env: Env, now: string,
                                  parse: Bytes -> Option<Json>): (m: LogMessage)
    ensures m.timestamp == now
    ensures m.request.Keys <= RequestAllowList + {"bodyLength", "body"}
    ensures m.response.Keys <= ResponseAllowList + {"body"}
    ensures "bodyLength" in m.request && "bodyLength" in m.response
    ensures m.request["bodyLength"] == UndefinedValue <==> req.body.Placeholder?
  {
    LogMessage(now, ToLogRequest(req, env, parse), ToLogResponse(res, env, parse))
  }

  /**
    output: the record serialized by `stringify` (which stands for
    `JSON.stringify`; its second argument is the indentation, 4 when PRETTY is
    'true' and none otherwise), followed by one newline.
   */
  function OutputLine(m: LogMessage, env: Env, stringify: (LogMessage, nat) -> string): (line: string)
    ensures |line| >= 1 && line[|line| - 1] == '\n'
    ensures line[..|line| - 1] == stringify(m, if EnvIs(env, "PRETTY", "true") then 4 else 0)
  {
    stringify(m, if EnvIs(env, "PRETTY", "true") then 4 else 0) + "\n"
  }

  /** What `output` writes for the records `ms`, one call after another. */
  function OutputStream(ms: seq<LogMessage>, env: Env, stringify: (LogMessage, nat) -> string): string
  {
    if ms == [] then "" else OutputLine(ms[0], env, stringify) + OutputStream(ms[1..], env, stringify)
  }

  /**
    One record per line: when PRETTY is not 'true' the serializer gets no
    indentation and writes no newline of its own, so splitting what `output`
    wrote on '\n' gives back each record's serialization, in order, followed by
    the empty text after the last newline.
   */
  lemma {:induction false} OneRecordPerLine(ms: seq<LogMessage>, env: Env, stringify: (LogMessage, nat) -> string)
    requires !EnvIs(env, "PRETTY", "true")
    requires forall m :: '\n' !in stringify(m, 0)
    ensures Js.Split(OutputStream(ms, env, stringify), '\n')
            == seq(|ms|, i requires 0 <= i < |ms| => stringify(ms[i], 0)) + [""]
  {
    if ms != [] {
      var first := stringify(ms[0], 0);
      var rest := OutputStream(ms[1..], env, stringify);
      OneRecordPerLine(ms[1..], env, stringify);
      assert OutputStream(ms, env, stringify) == first + ['\n'] + rest;
      Js.SplitAtFirst(first, rest, '\n');
      assert seq(|ms|, i requires 0 <= i < |ms| => stringify(ms[i], 0))
             == [first] + seq(|ms| - 1, i requires 0 <= i < |ms| - 1 => stringify(ms[1..][i], 0));
    }
  }

  /**
    When `body` is attached, in terms of the raw body alone: never when it is
    unset; the placeholder when its type is JSON or XML, or base64 is enabled; a
    decoded JSON body when the parsed value is truthy; any other buffer when it
    is non-empty and its type is JSON or XML, or base64 is enabled. The test
    `body !== ''` never decides anything, since '' is already falsy.
   */
  lemma {:induction false} BodyAttachedIff(m: Message, logBody: bool, decodeJSON: bool, binaryBodyB64: bool,
                                           parse: Bytes -> Option<Json>)
    ensures var r := SerializeValue(m.body, m.contentType, decodeJSON, binaryBodyB64, parse);
      && (IsEmptyString(r) ==> !IsTruthy(r))
      && (Attaches(logBody, r) <==>
          && logBody
          && !m.body.Unset?
          && if m.body.Placeholder? then
               m.contentType in {Some("application/json"), Some("application/xml")} || binaryBodyB64
             else if m.contentType == Some("application/json") && decodeJSON && parse(m.body.bytes).Some?
             then Truthy(parse(m.body.bytes).value)
             else m.body.bytes != []
                  && (m.contentType in {Some("application/json"), Some("application/xml")} || binaryBodyB64))
  {
    var r := SerializeValue(m.body, m.contentType, decodeJSON, binaryBodyB64, parse);
    if r.Some? && r.value.Base64Text? {
      Base64.EncodeEmptyIff(m.body.bytes);
    }
  }

  /**
    A request without a body, whose `req.body` is the `{}` placeholder: its
    `bodyLength` is undefined and so missing from the line, and the text
    '[object Object]' is logged as its body exactly when REQ_BODY is not 'false'
    and its type is JSON or XML, or REQ_BINARY_BODY_B64 is 'true'.
   */
  lemma PlaceholderRequest(req: Message, env: Env, parse: Bytes -> Option<Json>)
    requires req.body.Placeholder?
    ensures var l := ToLogRequest(req, env, parse);
      && l["bodyLength"] == UndefinedValue
      && ("body" in l <==> !EnvIs(env, "REQ_BODY", "false")
                           && (req.contentType in {Some("application/json"), Some("application/xml")}
                               || EnvIs(env, "REQ_BINARY_BODY_B64", "true")))
      && ("body" in l ==> l["body"] == RenderedBody(ObjectText))
  {
  }

  /** With REQ_BODY or RES_BODY set to 'false', that side never has a body, whatever the input. */
  lemma SwitchedOffSideHasNoBody(req: Message, res: Message, env: Env, now: string, parse: Bytes -> Option<Json>)
    ensures var m := LogRequestWithResponse(req, res, env, now, parse);
      && (EnvIs(env, "REQ_BODY", "false") ==> "body" !in m.request)
      && (EnvIs(env, "RES_BODY", "false") ==> "body" !in m.response)
  {
  }

  /**
    The two sides are independent: the request side depends only on the request
    and the REQ_ switches, the response side only on the response and the RES_
    switches.
   */
  lemma SidesIndependent(req1: Message, req2: Message, res1: Message, res2: Message, env1: Env, env2: Env,
                         now: string, parse: Bytes -> Option<Json>)
    ensures req1 == req2
            && EnvIs(env1, "REQ_BODY", "false") == EnvIs(env2, "REQ_BODY", "false")
            && EnvIs(env1, "REQ_DECODE_JSON", "true") == EnvIs(env2, "REQ_DECODE_JSON", "true")
            && EnvIs(env1, "REQ_BINARY_BODY_B64", "true") == EnvIs(env2, "REQ_BINARY_BODY_B64", "true")
            ==> LogRequestWithResponse(req1, res1, env1, now, parse).request
                == LogRequestWithResponse(req2, res2, env2, now, parse).request
    ensures res1 == res2
            && EnvIs(env1, "RES_BODY", "false") == EnvIs(env2, "RES_BODY", "false")
            && EnvIs(env1, "RES_DECODE_JSON", "true") == EnvIs(env2, "RES_DECODE_JSON", "true")
            && EnvIs(env1, "RES_BINARY_BODY_B64", "true") == EnvIs(env2, "RES_BINARY_BODY_B64", "true")
            ==> LogRequestWithResponse(req1, res1, env1, now, parse).response
                == LogRequestWithResponse(req2, res2, env2, now, parse).response
  {
  }
}
