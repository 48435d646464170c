/** The POST branch of `ask_questions` (app.py:103-117): keep the form
    fields that are answers, and read back the questions the page sent
    along in a hidden field. */
module AnswerForm {

  import opened Results
  import opened PyStr
  import opened PyDict

  /** Answer fields are the ones named `q_<something>`. */
  predicate IsAnswerKey(k: string) {
    StartsWith(k, "q_")
  }

  /** The answer fields of a form, in form order: every key of the result
      is a key of the form that starts with `q_`, with the form's value,
      and no such key of the form is missing. */
  function AnswerFields(form: Dict<string>): (r: Dict<string>)
    ensures forall k :: Lookup(r, k) == if IsAnswerKey(k) then Lookup(form, k) else None
    ensures forall i, j :: 0 <= i < j < |r| ==> IndexOf(form, r[i].0) < IndexOf(form, r[j].0)
  {
    if form == [] then []
    else
      var init: Dict<string> := form[..|form| - 1];
      var (k, v) := form[|form| - 1];
      var rest := AnswerFields(init);
      assert forall k' :: k' != k ==> Lookup(form, k') == Lookup(init, k') && IndexOf(form, k') == IndexOf(init, k');
      assert !HasKey(init, k);
      if IsAnswerKey(k) then
        assert !HasKey(rest, k);
        SetItem(rest, k, v)
      else
        rest
  }

  /** `for key, value in request.form.items(): if key.startswith('q_'):
      answers[key] = value`, starting from an empty dict. */
  method CollectAnswers(form: Dict<string>) returns (answers: Dict<string>)
    ensures answers == AnswerFields(form)
  {
    answers := [];
    var i := 0;
    while i < |form|
      invariant 0 <= i <= |form|
      invariant answers == AnswerFields(form[..i])
    {
      var (key, value) := form[i];
      assert form[..i + 1][..i] == form[..i];
      if StartsWith(key, "q_") {
        answers := SetItem(answers, key, value);
      }
      i := i + 1;
    }
    assert form[..|form|] == form;
  }

  /** The POST branch: the collected answers, and `ast.literal_eval` of the
      hidden `questions_json` field (missing field: empty text), or None
      when that raises. */
  method SubmitAnswers<T>(form: Dict<string>, literalEval: string -> Option<T>)
    returns (answers: Dict<string>, questions: Option<T>)
    ensures answers == AnswerFields(form)
    ensures questions == literalEval(Get(form, "questions_json", ""))
  {
    answers := CollectAnswers(form);
    var questionsRaw := Get(form, "questions_json", "");
    questions := literalEval(questionsRaw);
  }
}
