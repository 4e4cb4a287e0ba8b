/**
 How the verdict of a review is read (`parse_review_verdict`, src/agent/run.rs): the whole text as JSON,
 or else the JSON object inside it. Parsing one JSON text is a parameter.
 */
module Verdicts {
  import opened Wrappers
  import opened Text
  import J = JsonScanner

  datatype Verdict = Accept | SendBack(reason: string)

  /** What a JSON text parses to, as far as a verdict goes: the members that are strings. */
  datatype Payload = NoObject | Object(verdict: Option<string>, reason: Option<string>)

  function VerdictOf(payload: Payload): Option<Verdict> {
    if payload.NoObject? || payload.verdict.None? then None
    else if payload.verdict.value == "ok" then Some(Accept)
    else if payload.verdict.value == "retry" && payload.reason.Some? && Trim(payload.reason.value) != [] then
      Some(SendBack(Trim(payload.reason.value)))
    else None
  }

  function VerdictIn(parse: string -> Option<Payload>, text: string): Option<Verdict> {
    match parse(text)
    case None => None
    case Some(payload) => VerdictOf(payload)
  }

  function ParseReviewVerdict(parse: string -> Option<Payload>, text: string): Option<Verdict> {
    var trimmed := Trim(text);
    if trimmed == [] then None
    else if parse(trimmed).Some? then VerdictIn(parse, trimmed)
    else
      match J.EmbeddedObject(trimmed, 0)
      case None => None
      case Some(candidate) => VerdictIn(parse, candidate)
  }

  /** The JSON payload of a review: what the trimmed text parses to, or else what the first balanced object in it
      parses to. */
  ghost function PayloadOf(parse: string -> Option<Payload>, text: string): Option<Payload> {
    var trimmed := Trim(text);
    if trimmed == [] then None
    else if parse(trimmed).Some? then parse(trimmed)
    else if start: nat :| J.Balanced(trimmed, start) && forall k: nat | k < start :: !J.Balanced(trimmed, k) then
      parse(J.ObjectAt(trimmed, start))
    else None
  }

  /** The payload accepts. */
  predicate Accepts(payload: Option<Payload>) {
    payload.Some? && payload.value.Object? && payload.value.verdict == Some("ok")
  }

  /** The payload asks for another attempt, with a reason that is not blank. */
  predicate SendsBack(payload: Option<Payload>, why: string) {
    && payload.Some? && payload.value.Object? && payload.value.verdict == Some("retry")
    && payload.value.reason.Some? && Trim(payload.value.reason.value) == why != []
  }

  /** What a verdict means: acceptance is the verdict "ok" of the payload, and a return is its verdict "retry"
      with a reason; anything else is no verdict. */
  lemma VerdictIsOfPayload(parse: string -> Option<Payload>, text: string)
    ensures
      var payload, verdict := PayloadOf(parse, text), ParseReviewVerdict(parse, text);
      && (verdict == Some(Accept) <==> Accepts(payload))
      && (forall why :: verdict == Some(SendBack(why)) <==> SendsBack(payload, why))
  {
    var trimmed := Trim(text);
    J.EmbeddedObjectIsFirst(trimmed, 0);
    var found := J.EmbeddedObject(trimmed, 0);
    if found.Some? {
      var start: nat :| J.Balanced(trimmed, start) && found.value == J.ObjectAt(trimmed, start)
                        && forall k: nat | k < start :: !J.Balanced(trimmed, k);
      assert trimmed != [] && parse(trimmed).None? ==> PayloadOf(parse, text) == parse(J.ObjectAt(trimmed, start));
    }
  }

  method ReadVerdict(parse: string -> Option<Payload>, text: string) returns (verdict: Option<Verdict>)
    ensures verdict == ParseReviewVerdict(parse, text)
    ensures verdict == Some(Accept) <==> Accepts(PayloadOf(parse, text))
    ensures forall why :: verdict == Some(SendBack(why)) <==> SendsBack(PayloadOf(parse, text), why)
  {
    VerdictIsOfPayload(parse, text);
    var trimmed := Trim(text);
    if trimmed == [] {
      return None;
    }
    if parse(trimmed).Some? {
      return VerdictOf(parse(trimmed).value);
    }
    var candidate := J.ExtractEmbeddedJsonObject(trimmed);
    if candidate.None? || parse(candidate.value).None? {
      return None;
    }
    return VerdictOf(parse(candidate.value).value);
  }

  /** A verdict wrapped in prose is read like the bare object: after any text without an opening brace and
      before any text, as long as the whole is not JSON itself. */
  lemma WrappedVerdictIsRead(parse: string -> Option<Payload>, prefix: string, v: J.Json, suffix: string)
    requires J.Ok(v) && v.Object? && '{' !in prefix
    requires parse(Trim(prefix + J.Print(v) + suffix)).None?
    ensures ParseReviewVerdict(parse, prefix + J.Print(v) + suffix) == VerdictIn(parse, J.Print(v))
  {
    var middle := J.Print(v);
    assert middle[0] == '{' && middle[|middle| - 1] == '}';
    var a, b := TrimAround(prefix, middle, suffix);
    assert '{' !in a;
    var r := J.EmbeddedObject(a + middle + b, 0);
    J.EmbeddedObjectIsFirst(a + middle + b, 0);
    J.EmbeddedObjectIsFound(a, v, b, r);
  }
}
