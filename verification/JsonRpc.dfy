/** Matching JSON-RPC messages to a request (crates/harness/src/mcp.rs, `classify`; section 5 of
    the JSON-RPC 2.0 specification). */
module JsonRpc {
  import opened Json
  import opened McpError
  import opened Outcomes

  datatype Source = JsonBody | Sse

  type Verdict = Result<Json, McpError>

  function AnswerError(err: Json): McpError {
    match (AsI64(Get(err, "code")), AsString(Get(err, "message")))
    case (Some(code), Some(message)) => JsonRpc(code, message)
    case _ => Protocol(MalformedErrorObject)
  }

  /** Classify a message against request `want`; `v` is nothing when its text is not JSON.
      Nothing in return means "ignore and keep reading". */
  function Classify(v: Option<Json>, want: nat, source: Source): Option<Verdict> {
    match v
    case None => Some(Err(Protocol(if source.JsonBody? then BodyNotJson else SseDataNotJson)))
    case Some(msg) =>
      var id := Get(msg, "id");
      var idMatches := id == Some(JInt(want));
      var hasMethod := Get(msg, "method").Some?;
      var error := Get(msg, "error");
      if hasMethod && source.Sse? then None
      else if !hasMethod && error.Some? && (idMatches || id.None? || id == Some(JNull)) then
        Some(Err(AnswerError(error.value)))
      else if hasMethod || !idMatches then
        if source.Sse? then None else Some(Err(Protocol(IdMismatch(want, id))))
      else
        match Get(msg, "result")
        case Some(x) => Some(Ok(x))
        case None => Some(Err(Protocol(NeitherResultNorError)))
  }

  // ----- What counts as an answer -----

  /** `msg` is a response (no method) either to `want`, or an error whose request could not be told. */
  predicate Answers(msg: Json, want: nat) {
    && Get(msg, "method").None?
    && (Get(msg, "id") == Some(JInt(want))
        || (Get(msg, "error").Some? && (Get(msg, "id").None? || Get(msg, "id") == Some(JNull))))
  }

  /** A proper result response to `want`: its id, a result, and neither method nor error. */
  predicate IsResult(msg: Json, want: nat, x: Json) {
    && Get(msg, "method").None? && Get(msg, "error").None?
    && Get(msg, "id") == Some(JInt(want)) && Get(msg, "result") == Some(x)
  }

  /** On a stream, exactly the messages that answer nobody or somebody else are skipped. */
  lemma StreamSkipsExactlyNonAnswers(msg: Json, want: nat)
    ensures Classify(Some(msg), want, Sse).None? <==> !Answers(msg, want)
  {
  }

  lemma BodyIsAlwaysDecisive(v: Option<Json>, want: nat)
    ensures Classify(v, want, JsonBody).Some?
  {
  }

  /** Success comes from a proper result response and from nothing else, on either transport. */
  lemma OkExactlyForResult(v: Option<Json>, want: nat, source: Source, x: Json)
    ensures Classify(v, want, source) == Some(Ok(x)) <==> v.Some? && IsResult(v.value, want, x)
  {
  }

  /** The same message never answers two different requests with success. */
  lemma OneResultOneRequest(msg: Json, want: nat, other: nat, source: Source)
    requires Classify(Some(msg), want, source).Some? && Classify(Some(msg), want, source).value.Ok?
    requires other != want
    ensures Classify(Some(msg), other, source) ==
            if source.Sse? then None else Some(Err(Protocol(IdMismatch(other, Some(JInt(want))))))
  {
    OkExactlyForResult(Some(msg), want, source, Classify(Some(msg), want, source).value.value);
  }

  // ----- Which error an answer becomes -----

  /** `v` is an object with that field. */
  predicate Field(v: Json, key: string, x: Json) {
    v.JObject? && key in v.fields && v.fields[key] == x
  }

  predicate Lacks(v: Json, key: string) {
    v.JObject? ==> key !in v.fields
  }

  predicate AddressedTo(msg: Json, want: nat) {
    Field(msg, "id", JInt(want))
  }

  /** A response carrying an error, addressed to `want` or to no request at all. */
  predicate CarriesError(msg: Json, want: nat, err: Json) {
    && Lacks(msg, "method") && Field(msg, "error", err)
    && (AddressedTo(msg, want) || Lacks(msg, "id") || Field(msg, "id", JNull))
  }

  /** An error object of the specification: an integer code of 64 bits, signed, and a text. */
  predicate SpellsError(err: Json, code: int, message: string) {
    && Field(err, "code", JInt(code)) && -0x8000_0000_0000_0000 <= code <= 0x7fff_ffff_ffff_ffff
    && Field(err, "message", JString(message))
  }

  /** The server's code and message are reported exactly when the message carries them as its error. */
  lemma ErrorReportedExactly(v: Option<Json>, want: nat, source: Source, code: int, message: string)
    ensures Classify(v, want, source) == Some(Err(JsonRpc(code, message)))
       <==> v.Some? && exists err :: CarriesError(v.value, want, err) && SpellsError(err, code, message)
  {
    if v.Some? && Get(v.value, "error").Some? {
      var err := Get(v.value, "error").value;
      assert forall other | CarriesError(v.value, want, other) :: other == err;
      assert AnswerError(err) == JsonRpc(code, message) <==> SpellsError(err, code, message);
      assert CarriesError(v.value, want, err) ==> Classify(v, want, source) == Some(Err(AnswerError(err)));
    }
  }

  /** An error that is no error object of the specification is reported as malformed. */
  lemma MalformedExactly(v: Option<Json>, want: nat, source: Source)
    ensures Classify(v, want, source) == Some(Err(Protocol(MalformedErrorObject)))
       <==> v.Some? && exists err :: CarriesError(v.value, want, err)
                                     && forall code, message :: !SpellsError(err, code, message)
  {
    if v.Some? && Get(v.value, "error").Some? {
      var err := Get(v.value, "error").value;
      assert forall other | CarriesError(v.value, want, other) :: other == err;
      var (code, message) := (AsI64(Get(err, "code")), AsString(Get(err, "message")));
      if code.Some? && message.Some? {
        assert SpellsError(err, code.value, message.value);
      }
      assert CarriesError(v.value, want, err) ==> Classify(v, want, source) == Some(Err(AnswerError(err)));
    }
  }

  /** A response to `want` with neither a result nor an error is reported as such. */
  lemma NeitherExactly(v: Option<Json>, want: nat, source: Source)
    ensures Classify(v, want, source) == Some(Err(Protocol(NeitherResultNorError)))
       <==> v.Some? && AddressedTo(v.value, want)
            && Lacks(v.value, "method") && Lacks(v.value, "error") && Lacks(v.value, "result")
  {
  }

  /** Only a body is reported for its id: one that asks something itself, or that answers another
      request and carries no error meant for nobody. */
  lemma MismatchExactly(v: Option<Json>, want: nat, source: Source, n: nat, got: Option<Json>)
    ensures Classify(v, want, source) == Some(Err(Protocol(IdMismatch(n, got))))
       <==> && v.Some? && source.JsonBody? && n == want
            && (if got.Some? then Field(v.value, "id", got.value) else Lacks(v.value, "id"))
            && (!Lacks(v.value, "method")
                || (!AddressedTo(v.value, want)
                    && !(!Lacks(v.value, "error") && (got.None? || got == Some(JNull)))))
  {
  }

  /** Text that is no JSON ends the exchange on either transport. */
  lemma NotJsonExactly(v: Option<Json>, want: nat, source: Source)
    ensures Classify(v, want, source) == Some(Err(Protocol(BodyNotJson))) <==> v.None? && source.JsonBody?
    ensures Classify(v, want, source) == Some(Err(Protocol(SseDataNotJson))) <==> v.None? && source.Sse?
  {
  }
}
