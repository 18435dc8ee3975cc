/**
  `serializeBody` (proxy.js:31-60): how a captured body is rendered for the log,
  given the media type found in its Content-Type header and two policy flags.
 */
module BodyRenderer {
  import opened Wrappers
  import opened Buffers
  import opened JsonValue
  import Js
  import Base64

  /**
    A rendered body. `Utf8Text(raw)` is the string `raw.toString()` yields (the
    UTF-8 decoding of raw, which is not computed here); `Base64Text` holds the
    string `raw.toString('base64')` yields. `ObjectText` is '[object Object]', the
    string `toString` of a plain object yields, with or without an encoding.
   */
  datatype Body = Parsed(value: Json) | Utf8Text(raw: Bytes) | Base64Text(encoded: string) | ObjectText

  /**
    The value serializeBody is handed as its buffer: undefined, a Buffer, or the
    empty object `{}` the raw body parser leaves on a request without a body.
   */
  datatype RawBody = Unset | Raw(bytes: Bytes) | Placeholder

  /** The JavaScript values the `switch` of serializeBody compares. */
  datatype JsPrimitive = Undefined | Str(s: string) | Boolean(b: bool)

  /** The discriminant of the switch: the parsed media type, or undefined when the header could not be parsed. */
  function Discriminant(requestType: Option<string>): JsPrimitive
  {
    match requestType
    case Some(t) => Str(t)
    case None => Undefined
  }

  // The test of the pattern text\/.* against String(requestType). It is unanchored,
  // so it holds when "text/" occurs anywhere in that string.
  predicate TextPatternTest(requestType: Option<string>)
  {
    Js.Contains(Js.ToStringValue(requestType), "text/")
  }

  /** The clauses of the switch, in source order. */
  datatype Clause = JsonClause | TextPatternClause | XmlClause | DefaultClause

  /**
    The clause the switch enters: the first whose label is strictly equal (===)
    to the discriminant. The label of the second clause is the boolean result of
    the regular expression test, which no string and not undefined equals.
   */
  function SelectClause(requestType: Option<string>): (c: Clause)
    ensures c != TextPatternClause
    ensures c == JsonClause <==> requestType == Some("application/json")
    ensures c == XmlClause <==> requestType == Some("application/xml")
  {
    var d := Discriminant(requestType);
    if d == Str("application/json") then JsonClause
    else if d == Boolean(TextPatternTest(requestType)) then TextPatternClause
    else if d == Str("application/xml") then XmlClause
    else DefaultClause
  }

  /**
    serializeBody. `parse` stands for `JSON.parse` applied to the buffer (None
    when it throws). In the JSON clause a failed parse, or decoding turned off,
    runs on without a `break` through the empty regular-expression clause into
    the XML clause, which renders the text. The default clause renders base64 or
    nothing. The buffer is checked for presence only: an empty buffer is rendered.
   */
  function SerializeBody(buffer: Option<Bytes>, requestType: Option<string>, decodeJSON: bool,
                         binaryBodyB64: bool, parse: Bytes -> Option<Json>): (r: Option<Body>)
    ensures buffer.None? ==> r.None?
    ensures buffer.Some? && requestType == Some("application/json") ==>
      r == Some(if decodeJSON && parse(buffer.value).Some? then Parsed(parse(buffer.value).value)
                else Utf8Text(buffer.value))
    ensures buffer.Some? && requestType == Some("application/xml") ==> r == Some(Utf8Text(buffer.value))
    ensures buffer.Some? && requestType != Some("application/json") && requestType != Some("application/xml") ==>
      r == if binaryBodyB64 then Some(Base64Text(Base64.Encode(buffer.value))) else None
  {
    match buffer
    case None => None
    case Some(b) =>
      match SelectClause(requestType)
      case JsonClause =>
        if decodeJSON && parse(b).Some? then Some(Parsed(parse(b).value))
        else Some(Utf8Text(b))
      case TextPatternClause => Some(Utf8Text(b))
      case XmlClause => Some(Utf8Text(b))
      case DefaultClause => if binaryBodyB64 then Some(Base64Text(Base64.Encode(b))) else None
  }

  /**
    serializeBody given the `{}` placeholder, which is truthy. `JSON.parse({})`
    parses '[object Object]' and throws, so the JSON clause falls through to
    `toString()` whether or not decoding is on; the XML clause renders the same
    text; the default clause does too when base64 is enabled, since a plain
    object's `toString` ignores the encoding argument.
   */
  function SerializePlaceholder(requestType: Option<string>, binaryBodyB64: bool): (r: Option<Body>)
    ensures r.Some? <==> requestType in {Some("application/json"), Some("application/xml")} || binaryBodyB64
    ensures r.Some? ==> r.value == ObjectText
  {
    match SelectClause(requestType)
    case JsonClause => Some(ObjectText)
    case TextPatternClause => Some(ObjectText)
    case XmlClause => Some(ObjectText)
    case DefaultClause => if binaryBodyB64 then Some(ObjectText) else None
  }

  /** serializeBody over any value it can be handed: nothing for undefined, otherwise by the clauses above. */
  function SerializeValue(body: RawBody, requestType: Option<string>, decodeJSON: bool,
                          binaryBodyB64: bool, parse: Bytes -> Option<Json>): Option<Body>
  {
    match body
    case Unset => SerializeBody(None, requestType, decodeJSON, binaryBodyB64, parse)
    case Raw(b) => SerializeBody(Some(b), requestType, decodeJSON, binaryBodyB64, parse)
    case Placeholder => SerializePlaceholder(requestType, binaryBodyB64)
  }

  /** A media type of the text/ family is rendered like binary content: base64 when enabled, otherwise not at all. */
  lemma TextTypesRenderAsBinary(b: Bytes, subtype: string, decodeJSON: bool, binaryBodyB64: bool,
                                parse: Bytes -> Option<Json>)
    ensures var r := SerializeBody(Some(b), Some("text/" + subtype), decodeJSON, binaryBodyB64, parse);
      && TextPatternTest(Some("text/" + subtype))
      && r == if binaryBodyB64 then Some(Base64Text(Base64.Encode(b))) else None
  {
    var t := "text/" + subtype;
    assert Js.OccursAt(t, "text/", 0);
    assert t[0] != "application/json"[0];
  }

  /** The rendered value is present exactly when there is a buffer and its type is JSON, XML, or base64 is enabled. */
  lemma RenderedIff(buffer: Option<Bytes>, requestType: Option<string>, decodeJSON: bool,
                    binaryBodyB64: bool, parse: Bytes -> Option<Json>)
    ensures SerializeBody(buffer, requestType, decodeJSON, binaryBodyB64, parse).Some? <==>
      buffer.Some? && (requestType in {Some("application/json"), Some("application/xml")} || binaryBodyB64)
  {
  }
}
