/** What the two question handlers do with the model's reply once it is
    cleaned (app.py:64-69 in `api_questions`, app.py:136-143 in
    `ask_questions`). `json.loads` is a parameter: only the branching on
    its outcome is modelled, not JSON itself. */
module QuestionParsing {

  import opened Results
  import opened PyDict
  import opened Json
  import opened PyStr
  import opened ResponseCleaner

  /** A JSON parser: the parsed value, or the text of the exception it
      raised. */
  type Loads = string -> Result<Value, string>

  const ErrorPrefix := "Error parsing questions: "

  /** The outcome of the `try` block: the questions, or the message of the
      caught exception together with the unmodified raw reply. */
  datatype Outcome = Questions(questions: Value) | ParseError(message: string, raw: string)

  /** The text of the AttributeError Python raises for `v.get`, when the
      parsed value is not a dict. */
  function NoGetMessage(v: Value): string {
    "'" + TypeName(v) + "' object has no attribute 'get'"
  }

  /** `.get('questions', [])` on what `json.loads` returned, with the
      exception either call raises as a failure. */
  function GetQuestions(parsed: Result<Value, string>): (r: Result<Value, string>)
    ensures r.Success? <==> parsed.Success? && parsed.value.Object?
  {
    match parsed
    case Failure(e) => Failure(e)
    case Success(v) =>
      if v.Object? then Success(Get(v.fields, "questions", Array([])))
      else Failure(NoGetMessage(v))
  }

  /** The `try`/`except` around parsing: questions exactly when the parse
      gave a JSON object; every error carries the raw reply unmodified and
      the exception's text after a fixed prefix. */
  function OutcomeOf(parsed: Result<Value, string>, raw: string): (o: Outcome)
    ensures o.Questions? <==> parsed.Success? && parsed.value.Object?
    ensures o.ParseError? ==> o.raw == raw && StartsWith(o.message, ErrorPrefix)
  {
    match GetQuestions(parsed)
    case Success(q) => Questions(q)
    case Failure(e) => ParseError(ErrorPrefix + e, raw)
  }

  /** Clean the reply, parse it, and branch on the result: questions
      exactly when the cleaned reply parses to an object, and otherwise an
      error that carries the reply as it came from the model. */
  function ParseQuestions(raw: string, loads: Loads): (o: Outcome)
    ensures o.Questions? <==> loads(Clean(raw)).Success? && loads(Clean(raw)).value.Object?
    ensures o.ParseError? ==> o.raw == raw && StartsWith(o.message, ErrorPrefix)
  {
    OutcomeOf(loads(Clean(raw)), raw)
  }

  /** An object without a "questions" key yields an empty list, not an
      error. */
  lemma MissingQuestionsKeyGivesEmptyList(fields: Dict<Value>, raw: string)
    requires !HasKey(fields, "questions")
    ensures OutcomeOf(Success(Object(fields)), raw) == Questions(Array([]))
  {
  }

  /** An object with a "questions" key yields that key's value. */
  lemma QuestionsKeyIsReturned(fields: Dict<Value>, i: int, raw: string)
    requires 0 <= i < |fields| && fields[i].0 == "questions"
    ensures OutcomeOf(Success(Object(fields)), raw) == Questions(fields[i].1)
  {
  }

  /** A parser failure yields an error naming the exception and carrying
      the raw reply unmodified. */
  lemma ParseFailureKeepsRaw(e: string, raw: string)
    ensures OutcomeOf(Failure(e), raw) == ParseError(ErrorPrefix + e, raw)
  {
  }

  /** JSON that is not an object (a list, a string, a number, true, false
      or null) takes the same error path, through `.get` raising. */
  lemma NonObjectIsError(v: Value, raw: string)
    requires !v.Object?
    ensures OutcomeOf(Success(v), raw) == ParseError(ErrorPrefix + NoGetMessage(v), raw)
  {
  }

  /** The JSON response of `api_questions` (app.py:64-69). */
  datatype Response = Response(status: nat, body: Dict<Value>)

  /** The response for a parse outcome: 200 with the questions, or 500
      with the error message and the raw reply, never both. */
  function ApiResponse(o: Outcome): (r: Response)
    ensures r.status == 200 <==> o.Questions?
    ensures r.status == 500 <==> o.ParseError?
    ensures o.Questions? ==> Lookup(r.body, "questions") == Some(o.questions)
    ensures o.ParseError? ==>
      && Lookup(r.body, "error") == Some(Str(o.message))
      && Lookup(r.body, "raw") == Some(Str(o.raw))
      && !HasKey(r.body, "questions")
  {
    match o
    case Questions(q) =>
      Response(200, SetItem([], "questions", q))
    case ParseError(message, raw) =>
      var withError := SetItem([], "error", Str(message));
      assert !HasKey(withError, "questions");
      Response(500, SetItem(withError, "raw", Str(raw)))
  }

  /** `api_questions` from the model's reply on: a 200 answer with the
      questions, or a 500 answer that carries the unmodified reply and no
      questions. */
  function ApiQuestions(raw: string, loads: Loads): (r: Response)
    ensures r.status == 200 || r.status == 500
    ensures r.status == 200 <==> loads(Clean(raw)).Success? && loads(Clean(raw)).value.Object?
    ensures r.status == 500 ==>
      && Lookup(r.body, "raw") == Some(Str(raw))
      && !HasKey(r.body, "questions")
  {
    ApiResponse(ParseQuestions(raw, loads))
  }

  /** What `ask_questions` hands to the questions template (app.py:136-143).
      `questions` is a Python value: JSON `null` and Python's `None` are
      both `Null`, so the error path passes `Null` as well. */
  datatype QuestionsPage = QuestionsPage(
    questions: Value,
    extractedText: string,
    geminiResponse: string,
    parseError: Option<string>)

  /** The page for a parse outcome: the error message is set exactly when
      parsing failed, and then `questions` is `None`; on success the page
      gets the parsed questions. The raw reply and the extracted text are
      passed on unmodified. */
  function PageFor(extracted: string, raw: string, o: Outcome): (p: QuestionsPage)
    ensures p.parseError.None? <==> o.Questions?
    ensures o.Questions? ==> p.questions == o.questions
    ensures o.ParseError? ==> p.questions == Null && p.parseError == Some(o.message)
    ensures p.extractedText == extracted && p.geminiResponse == raw
  {
    match o
    case Questions(q) => QuestionsPage(q, extracted, raw, None)
    case ParseError(message, _) => QuestionsPage(Null, extracted, raw, Some(message))
  }

  /** `ask_questions` from the model's reply on: the reply and the extracted
      text reach the page unmodified, and any error message carries the
      fixed prefix. */
  function AskQuestionsPage(extracted: string, raw: string, loads: Loads): (p: QuestionsPage)
    ensures p.geminiResponse == raw && p.extractedText == extracted
    ensures p.parseError.None? <==> loads(Clean(raw)).Success? && loads(Clean(raw)).value.Object?
    ensures p.parseError.Some? ==> p.questions == Null && StartsWith(p.parseError.value, ErrorPrefix)
  {
    PageFor(extracted, raw, ParseQuestions(raw, loads))
  }

  /** A reply whose `questions` value is JSON `null` parses without error,
      yet the page gets `None` for the questions, just as on the error
      path: only `parse_error` tells the two apart. */
  lemma NullQuestionsReachPageAsNone(extracted: string, raw: string, fields: Dict<Value>, i: int)
    requires 0 <= i < |fields| && fields[i] == ("questions", Null)
    ensures var p := PageFor(extracted, raw, OutcomeOf(Success(Object(fields)), raw));
      p.questions == Null && p.parseError == None
  {
    QuestionsKeyIsReturned(fields, i, raw);
  }

  /** The two copies of the parsing code agree: the JSON route answers 200
      exactly when the page has no parse error, and then with the same
      questions; when it fails, both report the same message. */
  lemma RoutesAgree(extracted: string, raw: string, o: Outcome)
    ensures var r := ApiResponse(o);
      var p := PageFor(extracted, raw, o);
      && (r.status == 200 <==> p.parseError.None?)
      && (r.status == 200 ==> Lookup(r.body, "questions") == Some(p.questions))
      && (p.parseError.Some? ==> Lookup(r.body, "error") == Some(Str(p.parseError.value)))
  {
  }
}
