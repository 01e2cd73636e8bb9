/**
 * The shape of the inference service's reply and the normalisation of
 * src/index.ts that turns any reply into the transformed text.
 */
module Reply {
  import opened Common
  import Radix

  /** Number.MAX_SAFE_INTEGER, 2^53 - 1. */
  const MaxSafeInteger: int := 0x1F_FFFF_FFFF_FFFF

  /**
   * The integers a JavaScript number holds exactly, every one of them
   * distinct; `String` prints each of them as its plain decimal digits.
   */
  type SafeInteger = n: int | -MaxSafeInteger <= n <= MaxSafeInteger

  /** A JavaScript value that is not an object (and not null). */
  datatype Primitive =
    | Undefined
    | Boolean(b: bool)
    | Number(n: SafeInteger)  // integral numbers within the safe range only
    | Str(s: string)

  /** What `AI.run` resolves to. */
  datatype AiReply =
    | Structured(response: Option<string>)   // a non-null object, with or without a `response` field
    | Null                                   // typeof null is "object", but the guard excludes it
    | Scalar(value: Primitive)

  /** `String(v)` (ECMA-262, section 22.1.1.1) for a primitive value. */
  function PrimitiveToString(v: Primitive): (s: string)
    ensures v.Str? ==> s == v.s
    ensures v.Number? && v.n >= 0 ==> Radix.Canonical(s, 10) && Radix.Value(s, 10) == v.n
    ensures v.Number? && v.n < 0 ==>
      |s| >= 2 && s[0] == '-' && Radix.Canonical(s[1..], 10) && Radix.Value(s[1..], 10) == -v.n
    ensures !v.Str? ==> s != ""
  {
    match v
    case Undefined => "undefined"
    case Boolean(b) => if b then "true" else "false"
    case Number(n) =>
      Radix.ValueOfToRadixString(if n < 0 then -n else n, 10);
      if n < 0 then "-" + Radix.ToRadixString(-n, 10) else Radix.ToRadixString(n, 10)
    case Str(s) => s
  }

  /**
   * The reply's text: an object gives its `response` field, or "" when the
   * field is missing or empty (`aiResponse.response || ""`); anything else,
   * null included, gives `String(aiResponse)`.
   */
  function Normalize(reply: AiReply): (text: string)
    ensures reply.Structured? && reply.response.Some? ==> text == reply.response.value
    ensures reply == Null ==> text == "null"
    ensures reply.Scalar? ==> text == PrimitiveToString(reply.value)
    ensures text == "" <==>
      reply == Structured(None) || reply == Structured(Some("")) || reply == Scalar(Str(""))
  {
    if reply.Structured? then
      if reply.response.Some? && reply.response.value != "" then reply.response.value else ""
    else if reply.Null? then
      "null"
    else
      PrimitiveToString(reply.value)
  }

  /** A null reply is not mistaken for an object without a `response` field. */
  lemma NullIsNotEmptyObject()
    ensures Normalize(Null) != Normalize(Structured(None))
  {
  }

  /** A numeric reply is stored as its decimal text, which reads back as the number. */
  lemma {:induction false} NumericReplyRoundTrip(n: nat)
    requires n <= MaxSafeInteger
    ensures Radix.Canonical(Normalize(Scalar(Number(n))), 10)
    ensures Radix.Value(Normalize(Scalar(Number(n))), 10) == n
  {
    Radix.ValueOfToRadixString(n, 10);
  }
}
