/** The terminal report of `api_submit` (app.py:74-89): one Q/A block per
    question, pairing question `idx` with form answer `q_<idx>`, or every
    answer as `key: value` when no questions were sent. Each `print` call
    becomes one element of the returned sequence (without the newline
    `print` adds). */
module QaReport {

  import opened PyStr
  import opened PyDict
  import opened AnswerForm

  const Header := "\n==== User Q&A Session ===="
  const Footer := "========================\n"
  const NoAnswer := "[No answer]"
  const LabelPrefix := "Question "
  const AnswerPrefix := "q_"

  /** `f'q_{idx}'`: the form field that holds the answer to question `idx`. */
  function AnswerKey(idx: nat): string {
    AnswerPrefix + Decimal(idx)
  }

  /** `f'Question {idx+1}'`: the label of a question without a `q` text. */
  function DefaultLabel(idx: nat): string {
    LabelPrefix + Decimal(idx + 1)
  }

  /** `q.get('q', f'Question {idx+1}')` */
  function Label(q: Dict<string>, idx: nat): string {
    Get(q, "q", DefaultLabel(idx))
  }

  /** `answers.get(f'q_{idx}', '[No answer]')` */
  function AnswerFor(answers: Dict<string>, idx: nat): string {
    Get(answers, AnswerKey(idx), NoAnswer)
  }

  /** `f"Q: {qtext}\nA: {ans}\n"` */
  function QaBlock(question: string, answer: string): string {
    "Q: " + question + "\nA: " + answer + "\n"
  }

  /** `f"{k}: {v}"` */
  function AnswerLine(k: string, v: string): string {
    k + ": " + v
  }

  /** The Q/A loop (app.py:81-84): one block per question, in list order. */
  method PairQuestions(questions: seq<Dict<string>>, answers: Dict<string>) returns (blocks: seq<string>)
    ensures |blocks| == |questions|
    ensures forall idx :: 0 <= idx < |questions| ==>
      blocks[idx] == QaBlock(Label(questions[idx], idx), AnswerFor(answers, idx))
  {
    blocks := [];
    for idx := 0 to |questions|
      invariant |blocks| == idx
      invariant forall j :: 0 <= j < idx ==> blocks[j] == QaBlock(Label(questions[j], j), AnswerFor(answers, j))
    {
      var qtext := Get(questions[idx], "q", LabelPrefix + Decimal(idx + 1));
      var ans := Get(answers, AnswerPrefix + Decimal(idx), NoAnswer);
      blocks := blocks + [QaBlock(qtext, ans)];
    }
  }

  /** The fallback loop (app.py:86-87): every answer, in dict order. */
  method ListAnswers(answers: Dict<string>) returns (lines: seq<string>)
    ensures |lines| == |answers|
    ensures forall i :: 0 <= i < |answers| ==> lines[i] == AnswerLine(answers[i].0, answers[i].1)
  {
    lines := [];
    for i := 0 to |answers|
      invariant |lines| == i
      invariant forall j :: 0 <= j < i ==> lines[j] == AnswerLine(answers[j].0, answers[j].1)
    {
      var (k, v) := answers[i];
      lines := lines + [AnswerLine(k, v)];
    }
  }

  /** Everything `api_submit` prints, between the header and the footer. */
  method SessionReport(questions: seq<Dict<string>>, answers: Dict<string>) returns (out: seq<string>)
    ensures |out| == 2 + (if questions != [] then |questions| else |answers|)
    ensures out[0] == Header && out[|out| - 1] == Footer
    ensures questions != [] ==> forall idx :: 0 <= idx < |questions| ==>
      out[idx + 1] == QaBlock(Label(questions[idx], idx), AnswerFor(answers, idx))
    ensures questions == [] ==> forall i :: 0 <= i < |answers| ==>
      out[i + 1] == AnswerLine(answers[i].0, answers[i].1)
  {
    var body;
    if questions != [] {
      body := PairQuestions(questions, answers);
    } else {
      body := ListAnswers(answers);
    }
    out := [Header] + body + [Footer];
  }

  /** The number in a default label is the question's 1-based position. */
  lemma DefaultLabelIsOneBased(idx: nat)
    ensures |DefaultLabel(idx)| > |LabelPrefix|
    ensures DecimalValue(DefaultLabel(idx)[|LabelPrefix|..]) == idx + 1
  {
    assert DefaultLabel(idx)[|LabelPrefix|..] == Decimal(idx + 1);
    DecimalRoundTrip(idx + 1);
  }

  /** The number in an answer key is the question's 0-based position. */
  lemma AnswerKeyIsZeroBased(idx: nat)
    ensures |AnswerKey(idx)| > |AnswerPrefix|
    ensures DecimalValue(AnswerKey(idx)[|AnswerPrefix|..]) == idx
  {
    assert AnswerKey(idx)[|AnswerPrefix|..] == Decimal(idx);
    DecimalRoundTrip(idx);
  }

  /** Different questions look up different answer fields. */
  lemma AnswerKeysDistinct(i: nat, j: nat)
    requires i != j
    ensures AnswerKey(i) != AnswerKey(j)
  {
    AnswerKeyIsZeroBased(i);
    AnswerKeyIsZeroBased(j);
  }

  /** The `q_` form filter keeps every `q_<idx>` key the report looks up:
      looking question `idx` up in the filtered answers gives the form's
      `q_<idx>` value, or `[No answer]` when the form has none. */
  lemma ReportSeesCollectedAnswer(form: Dict<string>, idx: nat)
    ensures AnswerFor(AnswerFields(form), idx) == Get(form, AnswerKey(idx), NoAnswer)
  {
    assert IsAnswerKey(AnswerKey(idx));
    assert Lookup(AnswerFields(form), AnswerKey(idx)) == Lookup(form, AnswerKey(idx));
  }
}
