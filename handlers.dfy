/**
 * The HTTP handlers: the writer wrapper that forces every response status to 200, the JSON
 * response helper, and the health and find-service handlers.
 */
module Handlers {
  import opened Wrappers
  import opened Models
  import Text

  type Byte = b: int | 0 <= b < 256

  const StatusOK := 200
  const ContentTypeHeader := "Content-Type"
  const JsonContentType := "application/json"
  const InvalidRequestPrefix := "invalid request: "
  const InternalErrorPrefix := "internal server error: "
  /** The body written when encoding the response fails. */
  const EncodeFailureBody := "{\"success\":false,\"error\":\"internal server error\"}"
  const HealthStatus := "ok"

  /** What a handler hands to the JSON encoder. */
  datatype Payload = Health(health: HealthResponse) | FindService(response: FindServiceResponse)

  /**
   * The server's per-request response writer, as the handlers see it: it records the header
   * map, every status passed to `WriteHeader`, and the bytes written as text.
   */
  class ResponseRecorder {
    var header: map<string, string>
    var statuses: seq<int>
    var body: string

    constructor ()
      ensures header == map[] && statuses == [] && body == ""
    {
      header, statuses, body := map[], [], "";
    }

    method SetHeader(key: string, value: string)
      modifies this
      ensures header == old(header)[key := value]
      ensures statuses == old(statuses) && body == old(body)
    {
      header := header[key := value];
    }

    method WriteHeader(code: int)
      modifies this
      ensures statuses == old(statuses) + [code]
      ensures header == old(header) && body == old(body)
    {
      statuses := statuses + [code];
    }

    method Write(data: string)
      modifies this
      ensures body == old(body) + data
      ensures header == old(header) && statuses == old(statuses)
    {
      body := body + data;
    }
  }

  /**
   * `statusOKWriter`: wraps the server's writer; the first `WriteHeader` forwards 200 whatever
   * code it is given, and every later one is swallowed. Headers and body pass straight through.
   */
  class StatusOKWriter {
    const inner: ResponseRecorder
    var wroteHeader: bool
    /** The statuses the inner writer had already received when it was wrapped. */
    ghost const before: seq<int>

    /** The wrapper has forwarded nothing, or exactly one 200 once `wroteHeader` is set. */
    ghost predicate Valid()
      reads this, inner
    {
      inner.statuses == before + (if wroteHeader then [StatusOK] else [])
    }

    constructor (w: ResponseRecorder)
      ensures inner == w && !wroteHeader && before == w.statuses && Valid()
    {
      inner := w;
      wroteHeader := false;
      before := w.statuses;
    }

    /** `WriteHeader`: the code is ignored; only the first call reaches the inner writer, as 200. */
    method WriteHeader(code: int)
      requires Valid()
      modifies this, inner
      ensures Valid() && wroteHeader
      ensures inner.statuses == if old(wroteHeader) then old(inner.statuses) else old(inner.statuses) + [StatusOK]
      ensures inner.header == old(inner.header) && inner.body == old(inner.body)
    {
      if wroteHeader {
        return;
      }
      wroteHeader := true;
      inner.WriteHeader(StatusOK);
    }

    /** The embedded writer's `Header().Set`. */
    method SetHeader(key: string, value: string)
      requires Valid()
      modifies inner
      ensures Valid()
      ensures inner.header == old(inner.header)[key := value]
      ensures inner.statuses == old(inner.statuses) && inner.body == old(inner.body)
    {
      inner.SetHeader(key, value);
    }

    /** The embedded writer's `Write`. */
    method Write(data: string)
      requires Valid()
      modifies inner
      ensures Valid()
      ensures inner.body == old(inner.body) + data
      ensures inner.header == old(inner.header) && inner.statuses == old(inner.statuses)
    {
      inner.Write(data);
    }
  }

  /** The wrapper never forwards more than one status, and what it forwards is 200. */
  lemma AtMostOneStatusForwarded(sw: StatusOKWriter)
    requires sw.Valid()
    ensures |sw.inner.statuses| <= |sw.before| + 1
    ensures forall k :: |sw.before| <= k < |sw.inner.statuses| ==> sw.inner.statuses[k] == StatusOK
  {
  }

  /** `forceStatusOK`: each request's handler runs against a fresh wrapper around the server's writer. */
  method ForceStatusOK(w: ResponseRecorder) returns (sw: StatusOKWriter)
    ensures fresh(sw) && sw.inner == w && !sw.wroteHeader && sw.before == w.statuses && sw.Valid()
  {
    sw := new StatusOKWriter(w);
  }

  /** What `responseJSON` writes as the body, given the encoder's output (`None` when encoding fails). */
  function ResponseBody(encoded: Option<string>): (body: string)
    ensures encoded.None? ==> body == EncodeFailureBody
    ensures encoded.Some? ==> Text.HasPrefix(body, encoded.value) && |body| == |encoded.value| + 1
    ensures encoded.Some? ==> body[|encoded.value|] == '\n'
  {
    match encoded
    case Some(text) => text + "\n"
    case None => EncodeFailureBody
  }

  /**
   * `responseJSON`: sets the JSON content type, writes the status, then the encoded payload and
   * the encoder's newline, or the fixed error body when encoding fails. The encoder is a
   * parameter.
   */
  method ResponseJSON(w: StatusOKWriter, statusCode: int, v: Payload, encode: Payload -> Option<string>)
    requires w.Valid()
    modifies w, w.inner
    ensures w.Valid() && w.wroteHeader
    ensures w.inner.header == old(w.inner.header)[ContentTypeHeader := JsonContentType]
    ensures w.inner.statuses == if old(w.wroteHeader) then old(w.inner.statuses) else old(w.inner.statuses) + [StatusOK]
    ensures w.inner.body == old(w.inner.body) + ResponseBody(encode(v))
  {
    w.SetHeader(ContentTypeHeader, JsonContentType);
    w.WriteHeader(statusCode);
    var encoded := encode(v);
    if encoded.Some? {
      w.Write(encoded.value + "\n");
    } else {
      w.SetHeader(ContentTypeHeader, JsonContentType);
      w.Write(EncodeFailureBody);
    }
  }

  /** `healthHandler`: always the status "ok". */
  method HealthHandler(w: StatusOKWriter, encode: Payload -> Option<string>)
    requires w.Valid()
    modifies w, w.inner
    ensures w.Valid() && w.wroteHeader
    ensures w.inner.header == old(w.inner.header)[ContentTypeHeader := JsonContentType]
    ensures w.inner.statuses == if old(w.wroteHeader) then old(w.inner.statuses) else old(w.inner.statuses) + [StatusOK]
    ensures w.inner.body == old(w.inner.body) + ResponseBody(encode(Health(HealthResponse(HealthStatus))))
  {
    ResponseJSON(w, StatusOK, Health(HealthResponse(HealthStatus)), encode);
  }

  /**
   * The envelope `findServiceHandler` answers with, given the outcome of reading the body and
   * the outcome `AskQuestion` gives for it: a read failure and a core failure become unsuccessful
   * envelopes with their fixed prefixes, and a core response passes through unchanged.
   */
  function FindServiceEnvelope(body: Result<seq<Byte>, string>, answer: Result<FindServiceResponse, string>): (r: FindServiceResponse)
    ensures body.Failure? || answer.Failure? ==> !r.success && r.data.None? && r.diagnostics == []
    ensures r.success ==> body.Success? && answer.Success? && answer.value.success
  {
    if body.Failure? then FindServiceResponse(false, None, InvalidRequestPrefix + body.error, [])
    else if answer.Failure? then FindServiceResponse(false, None, InternalErrorPrefix + answer.error, [])
    else answer.value
  }

  /** The two error prefixes tell the failures apart: no message can carry both. */
  lemma ErrorPrefixesDisjoint(s: string)
    ensures !(Text.HasPrefix(s, InvalidRequestPrefix) && Text.HasPrefix(s, InternalErrorPrefix))
  {
    if Text.HasPrefix(s, InvalidRequestPrefix) {
      assert s[2] == InvalidRequestPrefix[2] == 'v';
      assert InternalErrorPrefix[2] == 't';
    }
  }

  /**
   * Every failure is reported in the body with success false and no data, its prefix says which
   * stage failed, and the cause follows the prefix unchanged; a core response passes through
   * as it is, so success is claimed only when the core's own response does.
   */
  lemma EnvelopeClassifiesFailures(body: Result<seq<Byte>, string>, answer: Result<FindServiceResponse, string>)
    ensures body.Failure? ==>
      var r := FindServiceEnvelope(body, answer);
      && !r.success && r.data.None? && r.diagnostics == []
      && Text.Between(r.error, InvalidRequestPrefix, "") == Some(body.error)
      && !Text.HasPrefix(r.error, InternalErrorPrefix)
    ensures body.Success? && answer.Failure? ==>
      var r := FindServiceEnvelope(body, answer);
      && !r.success && r.data.None? && r.diagnostics == []
      && Text.Between(r.error, InternalErrorPrefix, "") == Some(answer.error)
      && !Text.HasPrefix(r.error, InvalidRequestPrefix)
    ensures body.Success? && answer.Success? ==> FindServiceEnvelope(body, answer) == answer.value
    ensures FindServiceEnvelope(body, answer).success ==> body.Success? && answer.Success? && answer.value.success
  {
    var r := FindServiceEnvelope(body, answer);
    if body.Failure? {
      Text.BetweenOpenEnd(InvalidRequestPrefix, body.error);
      ErrorPrefixesDisjoint(r.error);
    } else if answer.Failure? {
      Text.BetweenOpenEnd(InternalErrorPrefix, answer.error);
      ErrorPrefixesDisjoint(r.error);
    }
  }

  /**
   * `findServiceHandler`: reads the body, asks the core, and answers with the envelope, always
   * passing status 200. The body-read outcome and the core's outcome are parameters.
   */
  method FindServiceHandler(w: StatusOKWriter, body: Result<seq<Byte>, string>,
                            answer: Result<FindServiceResponse, string>, encode: Payload -> Option<string>)
    requires w.Valid()
    modifies w, w.inner
    ensures w.Valid() && w.wroteHeader
    ensures w.inner.header == old(w.inner.header)[ContentTypeHeader := JsonContentType]
    ensures w.inner.statuses == if old(w.wroteHeader) then old(w.inner.statuses) else old(w.inner.statuses) + [StatusOK]
    ensures w.inner.body == old(w.inner.body) + ResponseBody(encode(FindService(FindServiceEnvelope(body, answer))))
  {
    if body.Failure? {
      ResponseJSON(w, StatusOK, FindService(FindServiceResponse(false, None, InvalidRequestPrefix + body.error, [])), encode);
      return;
    }

    if answer.Failure? {
      ResponseJSON(w, StatusOK, FindService(FindServiceResponse(false, None, InternalErrorPrefix + answer.error, [])), encode);
      return;
    }

    ResponseJSON(w, StatusOK, FindService(answer.value), encode);
  }

  /**
   * A find-service request served through `forceStatusOK`: the server's writer receives exactly
   * one status, 200, the JSON content type, and the envelope's encoding.
   */
  method ServeFindService(w: ResponseRecorder, body: Result<seq<Byte>, string>,
                          answer: Result<FindServiceResponse, string>, encode: Payload -> Option<string>)
    modifies w
    ensures w.statuses == old(w.statuses) + [StatusOK]
    ensures w.header == old(w.header)[ContentTypeHeader := JsonContentType]
    ensures w.body == old(w.body) + ResponseBody(encode(FindService(FindServiceEnvelope(body, answer))))
  {
    var sw := ForceStatusOK(w);
    FindServiceHandler(sw, body, answer, encode);
  }

  /** A health check served through `forceStatusOK`: one status, 200, and the "ok" body. */
  method ServeHealth(w: ResponseRecorder, encode: Payload -> Option<string>)
    modifies w
    ensures w.statuses == old(w.statuses) + [StatusOK]
    ensures w.header == old(w.header)[ContentTypeHeader := JsonContentType]
    ensures w.body == old(w.body) + ResponseBody(encode(Health(HealthResponse(HealthStatus))))
  {
    var sw := ForceStatusOK(w);
    HealthHandler(sw, encode);
  }
}
