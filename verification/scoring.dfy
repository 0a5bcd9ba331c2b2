/**
 * `get_similarity_score`: the guard on empty paragraphs, the call to the
 * language model, the removal of a Markdown ```json fence from its reply, and
 * the mapping of every parse and conversion failure to the score 0.0.
 *
 * The model call, `json.loads` and `float()` on a string are foreign code; they
 * are the three functions of an `Oracle`.
 */
module Scoring {
  import opened Wrappers
  import opened PyStr

  /** The exception classes the two handlers of `get_similarity_score` tell apart. */
  datatype ErrorKind =
    | ValueError      // `ValueError`, and `json.JSONDecodeError`, which derives from it
    | AttributeError
    | OtherError      // any other subclass of `Exception`

  /** The first handler names `json.JSONDecodeError`, `ValueError` and `AttributeError`. */
  predicate FirstHandlerCatches(e: ErrorKind) {
    e == ValueError || e == AttributeError
  }

  /** Reading `response.text`: the reply text, or the exception the property raises (the same on every read). */
  datatype TextAccess = Text(s: string) | TextRaises(error: ErrorKind)

  /** The outcome of `model.generate_content(prompt)`. */
  datatype Reply = Response(text: TextAccess) | GenerateRaises(error: ErrorKind)

  /** A value `json.loads` can produce. */
  datatype Json =
    | JNull
    | JBool(b: bool)
    | JNumber(n: real)
    | JString(s: string)
    | JArray(items: seq<Json>)
    | JObject(fields: map<string, Json>)

  /**
   * The foreign collaborators: `generate(p1, p2)` is `model.generate_content(build_prompt(p1, p2))`,
   * `loads` is `json.loads` (None when it raises `JSONDecodeError`), and `floatOfString` is
   * `float()` applied to a string (None when it raises `ValueError`).
   */
  datatype Oracle = Oracle(
    generate: (string, string) -> Reply,
    loads: string -> Option<Json>,
    floatOfString: string -> Option<real>)

  /** Why an exception leaves `get_similarity_score` from inside its first handler. */
  datatype Escape =
    | UnboundResponse                 // the handler reads `response`, which was never assigned
    | TextReraised(error: ErrorKind)  // the handler reads `response.text`, which raises again

  datatype ScoreOutcome = Score(value: real) | Escaped(cause: Escape)

  const JSON_FENCE := "```json"
  const FENCE := "```"
  /** The offset the source adds to the opening fence's index: the length of "```json". */
  const JSON_FENCE_LENGTH := 7
  const SCORE_KEY := "similarity_score"

  /**
   * The text handed to `json.loads`: when the (already stripped) reply contains "```json",
   * the stripped slice from just after its first occurrence up to the last "```";
   * otherwise the reply unchanged.
   */
  function ExtractJson(t: string): (r: string)
    ensures !Contains(t, JSON_FENCE) ==> r == t
    ensures Contains(t, JSON_FENCE) ==> Trimmed(r) && |r| <= |t|
  {
    if Contains(t, JSON_FENCE) then
      var start := Find(t, JSON_FENCE);
      JsonFenceOpensFence(t, start);
      Strip(Slice(t, start + JSON_FENCE_LENGTH, RFind(t, FENCE)))
    else
      t
  }

  /** `float(v)` for a decoded JSON value; None where `float` raises (ValueError or TypeError). */
  function ToFloat(v: Json, floatOfString: string -> Option<real>): (r: Option<real>)
    ensures v.JNumber? ==> r == Some(v.n)
    ensures v.JBool? ==> r == Some(if v.b then 1.0 else 0.0)
    ensures (v.JNull? || v.JArray? || v.JObject?) ==> r == None
  {
    match v
    case JNumber(x) => Some(x)
    case JBool(b) => Some(if b then 1.0 else 0.0)
    case JString(s) => floatOfString(s)
    case _ => None
  }

  /**
   * `float(response_json.get("similarity_score", 0.0))`, with 0.0 wherever an exception is
   * raised: `.get` on a decoded value that is not an object raises AttributeError.
   */
  function ScoreOfJson(v: Json, floatOfString: string -> Option<real>): (r: real)
    ensures r != 0.0 ==> v.JObject? && SCORE_KEY in v.fields && ToFloat(v.fields[SCORE_KEY], floatOfString) == Some(r)
  {
    match v
    case JObject(fields) =>
      if SCORE_KEY in fields then
        match ToFloat(fields[SCORE_KEY], floatOfString)
        case Some(x) => x
        case None => 0.0
      else 0.0
    case _ => 0.0
  }

  /** The score computed from a reply text that could be read (lines 103-114, and the handlers' 0.0). */
  function ScoreOfText(raw: string, o: Oracle): real {
    match o.loads(ExtractJson(Strip(raw)))
    case None => 0.0
    case Some(v) => ScoreOfJson(v, o.floatOfString)
  }

  /** `get_similarity_score(paragraph1, paragraph2)`. */
  function SimilarityScore(p1: string, p2: string, o: Oracle): ScoreOutcome {
    if p1 == [] || p2 == [] then Score(0.0)
    else
      match o.generate(p1, p2)
      case GenerateRaises(e) =>
        if FirstHandlerCatches(e) then Escaped(UnboundResponse) else Score(0.0)
      case Response(TextRaises(e)) =>
        if FirstHandlerCatches(e) then Escaped(TextReraised(e)) else Score(0.0)
      case Response(Text(raw)) => Score(ScoreOfText(raw, o))
  }

  // ---------------------------------------------------------------------------
  // Fence extraction

  /** Every "```json" begins with a "```", so `rfind("```")` is never -1 on the fenced path. */
  lemma JsonFenceOpensFence(t: string, j: int)
    requires OccursAt(t, JSON_FENCE, j)
    ensures OccursAt(t, FENCE, j)
  {
    assert t[j..j + 3] == t[j..j + 7][..3];
  }

  /** A reply wrapped in a ```json fence yields the stripped body between the fences. */
  lemma FencedBodyExtracted(body: string)
    ensures ExtractJson(JSON_FENCE + body + FENCE) == Strip(body)
  {
    var t := JSON_FENCE + body + FENCE;
    assert OccursAt(t, JSON_FENCE, 0) by { assert t[0..7] == JSON_FENCE; }
    assert Find(t, JSON_FENCE) == 0;
    assert OccursAt(t, FENCE, |t| - 3) by { assert t[|t| - 3..|t|] == FENCE; }
    assert RFind(t, FENCE) == |t| - 3;
    assert t[7..|t| - 3] == body;
  }

  /**
   * With only an opening fence ("```json" and no other "```"), the slice runs backwards
   * and the extracted text is empty.
   */
  lemma OpeningFenceOnlyExtractsNothing(t: string, i: int)
    requires OccursAt(t, JSON_FENCE, i)
    requires forall k :: OccursAt(t, FENCE, k) ==> k == i
    ensures ExtractJson(t) == []
  {
    assert Contains(t, JSON_FENCE);
    JsonFenceOpensFence(t, Find(t, JSON_FENCE));
    JsonFenceOpensFence(t, i);
    assert RFind(t, FENCE) == i;
  }

  // ---------------------------------------------------------------------------
  // The outcomes of get_similarity_score

  /** An empty paragraph scores 0.0 whatever the oracle would do: the model is never consulted. */
  lemma EmptyParagraphSkipsModel(p1: string, p2: string, o1: Oracle, o2: Oracle)
    requires p1 == [] || p2 == []
    ensures SimilarityScore(p1, p2, o1) == SimilarityScore(p1, p2, o2) == Score(0.0)
  {
  }

  /**
   * An exception leaves `get_similarity_score` exactly when both paragraphs are non-empty and
   * either the model call or the read of `response.text` raises ValueError or AttributeError.
   */
  lemma EscapesExactly(p1: string, p2: string, o: Oracle)
    ensures SimilarityScore(p1, p2, o).Escaped? <==>
      p1 != [] && p2 != [] &&
      match o.generate(p1, p2)
      case GenerateRaises(e) => FirstHandlerCatches(e)
      case Response(TextRaises(e)) => FirstHandlerCatches(e)
      case Response(Text(_)) => false
  {
  }

  /** A non-zero score is exactly `float` of the "similarity_score" field of the decoded reply. */
  lemma NonZeroScoreIsParsedField(p1: string, p2: string, o: Oracle)
    requires SimilarityScore(p1, p2, o).Score? && SimilarityScore(p1, p2, o).value != 0.0
    ensures p1 != [] && p2 != []
    ensures o.generate(p1, p2).Response? && o.generate(p1, p2).text.Text?
    ensures
      var json := o.loads(ExtractJson(Strip(o.generate(p1, p2).text.s)));
      json.Some? && json.value.JObject? && SCORE_KEY in json.value.fields &&
      ToFloat(json.value.fields[SCORE_KEY], o.floatOfString) == Some(SimilarityScore(p1, p2, o).value)
  {
  }

  /**
   * A decoded object holding "similarity_score" scores exactly `float` of that field,
   * whatever other fields it has and whatever real that is: there is no clamping to [0, 1].
   */
  lemma ParsedScoreNotClamped(p1: string, p2: string, o: Oracle, raw: string, fields: map<string, Json>, x: real)
    requires p1 != [] && p2 != []
    requires o.generate(p1, p2) == Response(Text(raw))
    requires o.loads(ExtractJson(Strip(raw))) == Some(JObject(fields))
    requires SCORE_KEY in fields && ToFloat(fields[SCORE_KEY], o.floatOfString) == Some(x)
    ensures SimilarityScore(p1, p2, o) == Score(x)
  {
  }

  /** A decoded object without "similarity_score" scores 0.0 (the default of `.get`). */
  lemma MissingFieldScoresZero(p1: string, p2: string, o: Oracle, raw: string, fields: map<string, Json>)
    requires p1 != [] && p2 != []
    requires o.generate(p1, p2) == Response(Text(raw))
    requires o.loads(ExtractJson(Strip(raw))) == Some(JObject(fields))
    requires SCORE_KEY !in fields
    ensures SimilarityScore(p1, p2, o) == Score(0.0)
  {
  }

  /** A field `float` rejects, a decoded value that is not an object, or text `json.loads` rejects: 0.0. */
  lemma UnconvertibleScoresZero(p1: string, p2: string, o: Oracle, raw: string)
    requires p1 != [] && p2 != []
    requires o.generate(p1, p2) == Response(Text(raw))
    requires
      var json := o.loads(ExtractJson(Strip(raw)));
      json.None? || !json.value.JObject? ||
      (SCORE_KEY in json.value.fields && ToFloat(json.value.fields[SCORE_KEY], o.floatOfString).None?)
    ensures SimilarityScore(p1, p2, o) == Score(0.0)
  {
    var json := o.loads(ExtractJson(Strip(raw)));
    if json.Some? && json.value.JObject? {
      assert ScoreOfJson(json.value, o.floatOfString) == 0.0;
    }
    assert ScoreOfText(raw, o) == 0.0;
  }

  /**
   * A reply holding an opening ```json fence and no closing one hands the empty string to
   * `json.loads`, which rejects it, so the score is 0.0.
   */
  lemma OpeningFenceOnlyScoresZero(p1: string, p2: string, o: Oracle, raw: string, i: int)
    requires p1 != [] && p2 != []
    requires o.generate(p1, p2) == Response(Text(raw))
    requires OccursAt(Strip(raw), JSON_FENCE, i)
    requires forall k :: OccursAt(Strip(raw), FENCE, k) ==> k == i
    requires o.loads([]) == None
    ensures SimilarityScore(p1, p2, o) == Score(0.0)
  {
    OpeningFenceOnlyExtractsNothing(Strip(raw), i);
  }
}
