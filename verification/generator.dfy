/** The LLM side of quiz generation (`generate_quiz_from_text`): the prompt
    parameters, recovery of a JSON payload from the model's free-form reply,
    the `questions` check and the repair pass that fills in missing
    `choices` and `answer`. */
module Generator {
  import opened Wrappers
  import opened JsonValues
  import Text
  import Extraction

  /** What the prompt template interpolates. The template has slots for the
      topic and the question count only; the background text handed to the
      generator has no slot and never reaches the model. */
  datatype Prompt = Prompt(topic: string, numQuestions: int)

  /** Every failure of the generator. The source raises a `RuntimeError` (or
      lets a Python error escape) in each case; the endpoint turns all of
      them into a 500 whose detail is `Message`. */
  datatype GenError =
    | RequestFailed(cause: string)
    | InvalidJson(raw: string)
    | NoJson(raw: string)
    | MissingQuestions
    | QuestionNotObject(typeName: string)
    | ChoicesNotSubscriptable(typeName: string)
    | ChoicesKeyError

  /** `str(e)` of the exception raised for each failure. */
  function Message(e: GenError): string {
    match e
    case RequestFailed(cause) => "Gemini API request failed: " + cause
    case InvalidJson(raw) => "LLM returned invalid JSON. Raw output: " + raw
    case NoJson(raw) => "LLM did not return valid JSON. Raw output: " + raw
    case MissingQuestions => "LLM JSON missing 'questions' field or it is not a list"
    case QuestionNotObject(t) => "'" + t + "' object has no attribute 'setdefault'"
    case ChoicesNotSubscriptable(t) => "'" + t + "' object is not subscriptable"
    case ChoicesKeyError => "0"
  }

  const DefaultChoices: Json := JArr([JStr("A"), JStr("B"), JStr("C"), JStr("D")])

  // ---------------------------------------------------------------------
  // Recovery of the payload from the reply text
  // ---------------------------------------------------------------------

  /** Parse the stripped reply as JSON; failing that, parse the span the
      brace regex matches; failing that, report the stripped reply. */
  function Recover(reply: string, parse: string -> Option<Json>): (r: Result<Json, GenError>)
    ensures var text := Text.Strip(reply);
      parse(text).Some? ==> r == Success(parse(text).value)
    ensures var text := Text.Strip(reply);
      parse(text).None? && !Extraction.HasBraceSpan(text) ==> r == Failure(NoJson(text))
    ensures var text := Text.Strip(reply);
      parse(text).None? ==>
        forall a, b :: Extraction.IsSearchMatch(text, a, b) ==>
          && (r.Success? <==> parse(text[a..b + 1]).Some?)
          && (r.Success? ==> r.value == parse(text[a..b + 1]).value)
          && (r.Failure? ==> r.error == InvalidJson(text))
  {
    var text := Text.Strip(reply);
    match parse(text)
    case Some(payload) => Success(payload)
    case None =>
      match Extraction.BraceSpan(text)
      case None => Failure(NoJson(text))
      case Some(span) =>
        match parse(span)
        case Some(payload) => Success(payload)
        case None => Failure(InvalidJson(text))
  }

  // ---------------------------------------------------------------------
  // Repair pass
  // ---------------------------------------------------------------------

  /** Whether `c[0] if c else 'A'` evaluates without raising: a falsy value
      short-circuits to 'A'; a truthy list or string can be indexed. */
  predicate AnswerDefaultDefined(c: Json) {
    !Truthy(c) || c.JArr? || c.JStr?
  }

  /** The default `answer` computed from `choices`: the first choice, the
      first character when `choices` is a string, "A" when it is falsy. */
  function AnswerDefault(c: Json): (r: Result<Json, GenError>)
    ensures r.Success? <==> AnswerDefaultDefined(c)
    ensures !Truthy(c) ==> r == Success(JStr("A"))
    ensures c.JArr? && c.items != [] ==> r == Success(c.items[0])
    ensures c.JStr? && c.s != "" ==> r == Success(JStr([c.s[0]]))
    ensures c.JObj? && c.fields != map[] ==> r == Failure(ChoicesKeyError)
    ensures Truthy(c) && (c.JBool? || c.JInt? || c.JFloat?) ==> r == Failure(ChoicesNotSubscriptable(TypeName(c)))
  {
    if !Truthy(c) then Success(JStr("A"))
    else match c
      case JArr(items) => Success(items[0])
      case JStr(s) => Success(JStr([s[0]]))
      case JObj(_) => Failure(ChoicesKeyError)
      case _ => Failure(ChoicesNotSubscriptable(TypeName(c)))
  }

  /** The `choices` value the answer default is computed from. */
  function ChoicesAfterDefault(q: map<string, Json>): Json {
    if "choices" in q then q["choices"] else DefaultChoices
  }

  /** A question object after the repair pass has both fields. */
  ghost predicate IsComplete(q: Json) {
    q.JObj? && "choices" in q.fields && "answer" in q.fields
  }

  /** `q'` is `q` with missing `choices`/`answer` filled in and nothing
      else touched. */
  ghost predicate RepairedFrom(q: Json, q': Json) {
    && q.JObj? && q'.JObj?
    && q'.fields.Keys == q.fields.Keys + {"choices", "answer"}
    && (forall k :: k in q.fields ==> q'.fields[k] == q.fields[k])
    && ("choices" !in q.fields ==> q'.fields["choices"] == DefaultChoices)
    && ("answer" !in q.fields ==> AnswerDefault(q'.fields["choices"]) == Success(q'.fields["answer"]))
  }

  /** `q.setdefault('choices', ...)` then `q.setdefault('answer', ...)`.
      Python evaluates the default of the second call before looking for
      `answer`, so it raises even when `answer` is present. */
  function RepairFields(q: map<string, Json>): (r: Result<map<string, Json>, GenError>)
    ensures r.Success? <==> AnswerDefaultDefined(ChoicesAfterDefault(q))
    ensures r.Success? ==> RepairedFrom(JObj(q), JObj(r.value))
    ensures r.Failure? ==> AnswerDefault(ChoicesAfterDefault(q)) == Failure(r.error)
  {
    var q1 := if "choices" in q then q else q["choices" := DefaultChoices];
    var answer :- AnswerDefault(q1["choices"]);
    Success(if "answer" in q1 then q1 else q1["answer" := answer])
  }

  /** The repair of one element of `questions`; a non-object element has no
      `setdefault`. */
  function RepairQuestion(q: Json): (r: Result<Json, GenError>)
    ensures r.Success? <==> q.JObj? && AnswerDefaultDefined(ChoicesAfterDefault(q.fields))
    ensures r.Success? ==> RepairedFrom(q, r.value) && IsComplete(r.value)
    ensures r.Failure? ==> !r.error.MissingQuestions?
    ensures !q.JObj? ==> r == Failure(QuestionNotObject(TypeName(q)))
  {
    match q
    case JObj(fields) =>
      var fields' :- RepairFields(fields);
      Success(JObj(fields'))
    case _ => Failure(QuestionNotObject(TypeName(q)))
  }

  /** The repair loop over `questions`, in order, stopping at the first
      question that raises. */
  function RepairAll(qs: seq<Json>): (r: Result<seq<Json>, GenError>)
    ensures r.Success? <==> forall i :: 0 <= i < |qs| ==> RepairQuestion(qs[i]).Success?
    ensures r.Success? ==>
      |r.value| == |qs| && forall i :: 0 <= i < |qs| ==> RepairQuestion(qs[i]) == Success(r.value[i])
    ensures r.Failure? ==>
      exists i :: 0 <= i < |qs| && RepairQuestion(qs[i]) == Failure(r.error)
        && forall j :: 0 <= j < i ==> RepairQuestion(qs[j]).Success?
  {
    if qs == [] then Success([])
    else
      var head :- RepairQuestion(qs[0]);
      var tail :- RepairAll(qs[1..]);
      assert forall i :: 1 <= i < |qs| ==> qs[1..][i - 1] == qs[i];
      Success([head] + tail)
  }

  /** `'questions' in payload and isinstance(payload['questions'], list)`. */
  predicate HasQuestionList(p: Json) {
    p.JObj? && "questions" in p.fields && p.fields["questions"].JArr?
  }

  /** The `questions` check followed by the repair loop. */
  function RepairPayload(p: Json): (r: Result<Json, GenError>)
    ensures r == Failure(MissingQuestions) <==> !HasQuestionList(p)
    ensures r.Success? ==>
      && HasQuestionList(r.value)
      && r.value.fields.Keys == p.fields.Keys
      && (forall k :: k in p.fields && k != "questions" ==> r.value.fields[k] == p.fields[k])
    ensures r.Success? ==>
      var qs, qs' := p.fields["questions"].items, r.value.fields["questions"].items;
      && |qs'| == |qs|
      && forall i :: 0 <= i < |qs| ==> RepairedFrom(qs[i], qs'[i]) && IsComplete(qs'[i])
    ensures HasQuestionList(p) && r.Failure? ==>
      var qs := p.fields["questions"].items;
      exists i :: 0 <= i < |qs| && RepairQuestion(qs[i]) == Failure(r.error)
        && forall j :: 0 <= j < i ==> RepairQuestion(qs[j]).Success?
  {
    if !HasQuestionList(p) then Failure(MissingQuestions)
    else
      var repaired :- RepairAll(p.fields["questions"].items);
      Success(JObj(p.fields["questions" := JArr(repaired)]))
  }

  /** Running the repair loop again on its own output changes nothing. */
  lemma RepairIdempotent(p: Json)
    requires RepairPayload(p).Success?
    ensures RepairPayload(RepairPayload(p).value) == RepairPayload(p)
  {
    var p' := RepairPayload(p).value;
    var qs, qs' := p.fields["questions"].items, p'.fields["questions"].items;
    forall i | 0 <= i < |qs'|
      ensures RepairQuestion(qs'[i]) == Success(qs'[i])
    {
      assert RepairQuestion(qs[i]) == Success(qs'[i]);
      assert ChoicesAfterDefault(qs'[i].fields) == ChoicesAfterDefault(qs[i].fields);
      assert qs'[i].fields["answer" := qs'[i].fields["answer"]] == qs'[i].fields;
    }
    var again := RepairAll(qs').value;
    assert again == qs';
    assert p'.fields["questions" := JArr(qs')] == p'.fields;
  }

  /** Questions shaped like the declared `Question` model (an object whose
      `choices` is absent, null or a list) are always repaired: the repair
      pass is total on them. */
  lemma RepairTotal(p: Json)
    requires HasQuestionList(p)
    requires forall q :: q in p.fields["questions"].items ==>
      q.JObj? && ("choices" in q.fields ==> q.fields["choices"].JNull? || q.fields["choices"].JArr?)
    ensures RepairPayload(p).Success?
  {
    var qs := p.fields["questions"].items;
    assert forall i :: 0 <= i < |qs| ==> qs[i] in qs;
  }

  // ---------------------------------------------------------------------
  // The generator as a whole
  // ---------------------------------------------------------------------

  /** `generate_quiz_from_text`: one call to the model, recovery, check and
      repair. `llm` is the chat-completion call returning the reply content,
      `parse` is `json.loads`. `sourceText` is accepted and unused, as in
      the source, whose template has no slot for it. */
  function GenerateQuizFromText(topic: string, sourceText: string, numQuestions: int,
                                llm: Prompt -> Result<string, string>,
                                parse: string -> Option<Json>): (r: Result<Json, GenError>)
    ensures llm(Prompt(topic, numQuestions)).Failure? ==>
      r == Failure(RequestFailed(llm(Prompt(topic, numQuestions)).error))
    ensures r.Success? ==>
      && HasQuestionList(r.value)
      && forall q :: q in r.value.fields["questions"].items ==> IsComplete(q)
    ensures llm(Prompt(topic, numQuestions)).Success? ==>
      var reply := llm(Prompt(topic, numQuestions)).value;
      && (Recover(reply, parse).Failure? ==> r == Failure(Recover(reply, parse).error))
      && (Recover(reply, parse).Success? ==> r == RepairPayload(Recover(reply, parse).value))
  {
    match llm(Prompt(topic, numQuestions))
    case Failure(cause) => Failure(RequestFailed(cause))
    case Success(reply) =>
      var payload :- Recover(reply, parse);
      var repaired := RepairPayload(payload);
      if repaired.Success? then
        var qs := repaired.value.fields["questions"].items;
        assert forall q :: q in qs ==> IsComplete(q) by {
          forall q | q in qs ensures IsComplete(q) {
            var i :| 0 <= i < |qs| && qs[i] == q;
          }
        }
        repaired
      else
        repaired
  }

  /** The background text has no influence on the generator's outcome. */
  lemma BackgroundNotInPrompt(topic: string, source1: string, source2: string, numQuestions: int,
                              llm: Prompt -> Result<string, string>, parse: string -> Option<Json>)
    ensures GenerateQuizFromText(topic, source1, numQuestions, llm, parse)
         == GenerateQuizFromText(topic, source2, numQuestions, llm, parse)
  {
  }
}
