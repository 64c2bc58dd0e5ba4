/** The JSON text of streamed tool-call arguments, as both providers decode it. */
module JsonText {
  import opened Text

  /** What a decoded value is: an object, a string, or anything else. */
  datatype Shape = Object | Text(text: string) | Other

  /**
   * JSON decoding, the value `{}`, and whether the test that a decoded value has no key `raw_arguments`
   * passes; on a number, a boolean or null the test raises, which does not count as passing.
   */
  datatype Json<!J> = Json(loads: string -> Option<J>, emptyObject: J, lacksRawKey: J -> bool, shape: J -> Shape)

  /** Decoded arguments: `raw_arguments` holds the text when it is not JSON. */
  datatype Arguments<J> = Decoded(json: J) | RawArguments(text: string)

  /** Empty text counts as an empty object. */
  function Decode<J>(json: Json<J>, raw: string): Arguments<J> {
    if raw == "" then Decoded(json.emptyObject)
    else
      match json.loads(raw)
      case None => RawArguments(raw)
      case Some(value) => Decoded(value)
  }

  /** What argument text stands for: no text for the empty object, JSON for its value, other text for itself. */
  ghost predicate StandsFor<J>(json: Json<J>, raw: string, arguments: Arguments<J>) {
    && (raw == "" ==> arguments == Decoded(json.emptyObject))
    && (raw != "" && json.loads(raw).Some? ==> arguments == Decoded(json.loads(raw).value))
    && (raw != "" && json.loads(raw).None? ==> arguments == RawArguments(raw))
  }

  lemma DecodeStandsFor<J>(json: Json<J>, raw: string)
    ensures StandsFor(json, raw, Decode(json, raw))
  {
  }

  /** `_coerce_tool_input`: an object stays, a string is decoded once more, anything else counts as empty. */
  function Coerce<J>(json: Json<J>, input: Option<Arguments<J>>): Arguments<J> {
    match input
    case None => Decoded(json.emptyObject)
    case Some(RawArguments(text)) => RawArguments(text)
    case Some(Decoded(value)) =>
      match json.shape(value)
      case Object => Decoded(value)
      case Other => Decoded(json.emptyObject)
      case Text(text) =>
        var again := Decode(json, text);
        if text != "" && again.Decoded? && !json.shape(again.json).Object? then RawArguments(text) else again
  }

  /** The arguments are an object: a decoded one, or the one that wraps the raw text. */
  predicate IsObject<J>(json: Json<J>, arguments: Arguments<J>) {
    arguments.RawArguments? || json.shape(arguments.json).Object?
  }

  /** Coercion always gives an object, keeps one that is there, and turns other text into what it stands for. */
  lemma CoerceGivesObject<J>(json: Json<J>, input: Option<Arguments<J>>)
    requires json.shape(json.emptyObject).Object?
    ensures IsObject(json, Coerce(json, input))
    ensures input.Some? && IsObject(json, input.value) ==> Coerce(json, input) == input.value
    ensures input.None? || (input.value.Decoded? && json.shape(input.value.json).Other?)
            ==> Coerce(json, input) == Decoded(json.emptyObject)
    ensures input.Some? && input.value.Decoded? && json.shape(input.value.json).Text? ==>
              var text := json.shape(input.value.json).text;
              var inner := json.loads(text);
              if text != "" && (inner.None? || !json.shape(inner.value).Object?)
              then Coerce(json, input) == RawArguments(text)
              else StandsFor(json, text, Coerce(json, input))
  {
  }
}
