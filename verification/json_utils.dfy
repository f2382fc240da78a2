/**
  Total wrappers around a partial JSON parser. `JSON.parse`, `JSON.stringify`
  and JavaScript's string coercion are foreign functions: the model takes them
  as parameters (a `Codec`) and assumes nothing about them, in particular no
  round-trip law; where a property needs one it is a hypothesis of that lemma.
 */
module JsonUtils {
  import opened Wrappers
  import opened Json

  /** The argument type `string | undefined | null`. */
  datatype Input = Missing | NullInput | Text(text: string)

  /**
    The foreign functions. `parse` returns None where `JSON.parse` throws;
    `coerce` is `String(v)`, which `JSON.parse` applies to a non-string argument.
   */
  datatype Codec = Codec(
    parse: string -> Option<Value>,
    stringify: Value -> string,
    coerce: Value -> string)

  /**
    A value of any type handed to safeJsonParse, as its branches see it:
    `undefined` and `null` as themselves, otherwise the text `JSON.parse`
    reads, which is the string itself or the `String(v)` coercion of anything
    else. safeJsonParse's catch returns the default, so the text is all that
    matters there.
   */
  function AsInput(v: Value, codec: Codec): (r: Input)
    ensures v.Undefined? <==> r.Missing?
    ensures v.Null? <==> r.NullInput?
    ensures v.Str? ==> r == Text(v.s)
    ensures !IsNullish(v) && !v.Str? ==> r == Text(codec.coerce(v))
  {
    match v
    case Undefined => Missing
    case Null => NullInput
    case Str(s) => Text(s)
    case _ => Text(codec.coerce(v))
  }

  /** An optional stored string, where None stands for `undefined`. */
  function FromOptional(o: Option<string>): (r: Input)
    ensures r != NullInput
    ensures o.Some? <==> r.Text?
    ensures o.Some? ==> r.text == o.value
  {
    match o
    case None => Missing
    case Some(s) => Text(s)
  }

  /**
    safeJsonParse: `undefined`/`null` give the default; otherwise the parsed
    value, or the default when parsing throws. The result is always either the
    default or something the parser produced from the input text.
   */
  function SafeJsonParse(input: Input, defaultValue: Value, parse: string -> Option<Value>): (r: Value)
    ensures r == defaultValue || (input.Text? && parse(input.text) == Some(r))
    ensures !input.Text? ==> r == defaultValue
    ensures input.Text? && parse(input.text).Some? ==> r == parse(input.text).value
    ensures input.Text? && parse(input.text).None? ==> r == defaultValue
  {
    match input
    case Missing => defaultValue
    case NullInput => defaultValue
    case Text(s) =>
      match parse(s)
      case Some(v) => v
      case None => defaultValue
  }

  /**
    safeJsonParseWithFallback: `undefined` stays `undefined`, `null` stays
    `null` (never a default); otherwise the parsed value, or the input string
    itself when parsing throws.
   */
  function SafeJsonParseWithFallback(input: Input, parse: string -> Option<Value>): (r: Value)
    ensures input.Missing? ==> r == Undefined
    ensures input.NullInput? ==> r == Null
    ensures input.Text? ==> r == (if parse(input.text).Some? then parse(input.text).value else Str(input.text))
  {
    match input
    case Missing => Undefined
    case NullInput => Null
    case Text(s) =>
      match parse(s)
      case Some(v) => v
      case None => Str(s)
  }

  /**
    safeJsonParseWithFallback applied to a value of any type, as the decoding
    wrappers do (their `as string` cast changes nothing at run time):
    `undefined` and `null` come back as themselves; otherwise `JSON.parse`
    reads the value's text, and when it throws the catch hands back the
    argument itself, which for a non-string is the original value and not its
    coercion. On the declared `string | undefined | null` inputs it is
    safeJsonParseWithFallback.
   */
  function ParseWithFallback(v: Value, codec: Codec): (r: Value)
    ensures IsNullish(v) ==> r == v
    ensures r == v || (AsInput(v, codec).Text? && codec.parse(AsInput(v, codec).text) == Some(r))
    ensures !IsNullish(v) && codec.parse(AsInput(v, codec).text).Some? ==> r == codec.parse(AsInput(v, codec).text).value
    ensures !IsNullish(v) && codec.parse(AsInput(v, codec).text).None? ==> r == v
    ensures v.Str? || IsNullish(v) ==> r == SafeJsonParseWithFallback(AsInput(v, codec), codec.parse)
  {
    match AsInput(v, codec)
    case Missing => Undefined
    case NullInput => Null
    case Text(t) =>
      match codec.parse(t)
      case Some(x) => x
      case None => v
  }

  /**
    Where the typed helper and the wrappers' use of it part: a non-string
    whose coercion does not parse is handed back as itself, not as the text
    of its coercion.
   */
  lemma ParseWithFallbackKeepsUnparsable(v: Value, codec: Codec)
    requires !IsNullish(v) && !v.Str? && codec.parse(codec.coerce(v)).None?
    ensures ParseWithFallback(v, codec) == v
    ensures ParseWithFallback(v, codec) != SafeJsonParseWithFallback(AsInput(v, codec), codec.parse)
  {
  }

  /**
    The two helpers agree wherever parsing succeeds, and on missing input when
    no default is given; they differ only in what they return for `null` and
    for text that does not parse.
   */
  lemma FallbackAgreesWithSafeParse(input: Input, parse: string -> Option<Value>)
    ensures input.Text? && parse(input.text).Some? ==>
      forall d :: SafeJsonParseWithFallback(input, parse) == SafeJsonParse(input, d, parse)
    ensures input.Missing? ==>
      SafeJsonParseWithFallback(input, parse) == SafeJsonParse(input, Undefined, parse)
    ensures input.Text? && parse(input.text).None? ==>
      SafeJsonParseWithFallback(input, parse) == SafeJsonParse(input, Str(input.text), parse)
  {
  }

  /**
    Decoding what `stringify` produced gives the value back whenever the codec
    round-trips that value; the default is then never used.
   */
  lemma ParseOfEncoding(v: Value, d: Value, codec: Codec)
    requires codec.parse(codec.stringify(v)) == Some(v)
    ensures SafeJsonParse(Text(codec.stringify(v)), d, codec.parse) == v
    ensures SafeJsonParseWithFallback(Text(codec.stringify(v)), codec.parse) == v
    ensures ParseWithFallback(Str(codec.stringify(v)), codec) == v
  {
  }
}
