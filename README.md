# paper2podcast: reply cleaning, question parsing and answer handling

This project models the logic of the paper2podcast web application (`app.py`)
that sits around its calls to the generative model. Three pieces are modelled:

- **Reply cleaning.** The model's raw reply is trimmed. A leading markdown
  code fence and its `json` tag are taken off. When the text ends with a
  fence, everything from the last fence on is cut off (app.py:59-63, repeated
  at app.py:131-135).
- **Parse outcome.** The cleaned text is given to `json.loads`. The
  `questions` value is read with `.get('questions', [])`. Any exception
  becomes an error: `api_questions` reports it with the raw reply, and
  `ask_questions` shows it on the page.
- **Answer handling.** `ask_questions` keeps the `q_…` form fields. The
  `api_submit` report pairs question `idx` with the answer field `q_{idx}`.

Python's string and dict behaviour is modelled explicitly, because the
cleaner depends on its details:

- `strip`, `lstrip` and `rstrip` take an optional character argument. That
  argument is a set of characters, not a prefix. Without it, they strip the
  characters for which `str.isspace()` holds, Unicode included.
- `startswith`, `endswith`, `rfind` (which returns -1 when the pattern is
  absent) and slicing `s[:k]` (a negative `k` counts from the end) are
  modelled too.
- A `dict` is an insertion-ordered list of pairs with distinct keys
  (`PyDict.Dict`). Order matters because the handlers iterate over `items()`.

Modules, one file each:

- `results.dfy` (`Option`, `Result`)
- `py_str.dfy` (`str` operations and decimal rendering of `int`)
- `py_dict.dfy` (`dict` lookup, `get`, item assignment)
- `json.dfy` (the values `json.loads` produces)
- `response_cleaner.dfy` (app.py:59-63)
- `question_parsing.dfy` (app.py:64-69 and 136-143)
- `answer_form.dfy` (app.py:103-117)
- `qa_report.dfy` (app.py:74-89)

The JSON parser (`json.loads`) and `ast.literal_eval` are function parameters.
Only the branching on their success or failure is modelled.

Facts about `app.py` that the model keeps:

- Cleaning only trims the reply and strips a leading fence by character
  sets. It then cuts at the last fence when the text ends with one. Prose
  before or after a fenced block is kept.
- A question's text is read from the key `q`.
- An error message is the text of the caught exception, after the prefix
  `Error parsing questions: `.
- `ask_questions` passes Python's `None` as the questions both on a parse
  error and when the reply's `questions` value is JSON `null`. Only
  `parse_error` tells the two apart.

## Model

| member | source | states |
|---|---|---|
| PyStr.LStrip | app.py:61 | `lstrip(chars)` removes exactly the maximal leading run of characters in the set; the result is a suffix of the input whose first character (if any) is not in the set |
| PyStr.RStrip | app.py:59 | `rstrip` removes exactly the maximal trailing run of stripped characters; the result is a prefix whose last character is kept |
| PyStr.KeptFrom | app.py:61 | the scan behind `lstrip`: the first index at or after `i` whose character is kept, with every skipped character a stripped one |
| PyStr.KeptUntil | app.py:59 | the scan behind `rstrip`: one past the last kept index below `i`, with every skipped character a stripped one |
| PyStr.Strip | app.py:59 | `strip()` returns a contiguous piece of the input with only stripped characters before and after it, and neither end of the result is a stripped character |
| PyStr.RFind | app.py:63 | `rfind` returns an index where the pattern occurs and no later one exists, or -1 when it occurs nowhere |
| PyStr.RFindOfSuffix | app.py:62-63 | when the text ends with the pattern, `rfind` returns the start of that final occurrence |
| PyStr.SliceTo | app.py:63 | `s[:k]` is a prefix of `s`, of length `k` for `0 <= k <= len(s)`, of length `len(s)+k` (at least 0) for negative `k`, and all of `s` for `k > len(s)` |
| PyStr.Decimal | app.py:82-83 | `str(n)` in an f-string is a non-empty string of decimal digits without a leading zero |
| PyStr.DecimalRoundTrip | app.py:82-83 | reading the decimal rendering of `n` back gives `n` |
| PyStr.DecimalInjective | app.py:83 | different numbers render differently |
| PyDict.IndexOf | app.py:66 | the position of a key, or -1 exactly when no entry has that key |
| PyDict.Lookup | app.py:66 | the value stored under a key, and None exactly when the key is absent |
| PyDict.Get | app.py:66 | `d.get(k, default)` is the stored value when `k` is present and the default otherwise |
| PyDict.SetItem | app.py:108 | `d[k] = v`: `k` maps to `v`, every other key keeps its value, a new key is appended at the end, and an existing key keeps its place |
| ResponseCleaner.Clean | app.py:59-63 | the cleaned reply never starts or ends with whitespace, and it is a contiguous substring of the raw reply, so never longer |
| ResponseCleaner.CleanWithoutFences | app.py:59-63 | when the trimmed reply neither starts nor ends with three backticks, cleaning is plain `strip()` |
| ResponseCleaner.OpenFenceSteps | app.py:60-61 | the opening branch removes the whole leading run of backticks, then the whole run of the characters j, s, o, n (a set, not the word `json`), then the whole run of newlines, and then strips whitespace from what is left |
| ResponseCleaner.CloseFenceDropsLastFence | app.py:62-63 | when the text ends with three backticks, their last occurrence is that final one: the result is the text without its last three characters, stripped |
| ResponseCleaner.StripOfTrimmed | app.py:61 | `strip()` leaves a text that has no whitespace at either end unchanged |
| ResponseCleaner.CleanTaggedBlock | app.py:59-63 | the reply "```json\n{}\n```" cleans to "{}" |
| ResponseCleaner.CleanEatsTagCharacters | app.py:61 | the reply "```null```" cleans to "ull": the tag is stripped as a set of characters |
| QuestionParsing.GetQuestions | app.py:66 | `.get('questions', [])` on the parse result succeeds exactly when the text parsed to a JSON object |
| QuestionParsing.OutcomeOf | app.py:64-68 | questions come back exactly when the cleaned reply parsed to an object; every error carries the raw reply unmodified and a message starting `Error parsing questions: ` |
| QuestionParsing.MissingQuestionsKeyGivesEmptyList | app.py:66 | an object without a `questions` key yields an empty list, not an error |
| QuestionParsing.QuestionsKeyIsReturned | app.py:66 | an object with a `questions` key yields that key's value |
| QuestionParsing.ParseFailureKeepsRaw | app.py:67-68 | a parser failure yields an error naming the exception and carrying the raw reply unmodified, with no questions |
| QuestionParsing.NonObjectIsError | app.py:66-68 | JSON that is not an object takes the error path, through the AttributeError raised by `.get` |
| QuestionParsing.ApiResponse | app.py:64-69 | status 200 with the questions exactly on success; status 500 with the error message and the raw reply exactly on failure, with no `questions` key |
| QuestionParsing.ParseQuestions | app.py:58-68 | cleaning and parsing the reply gives questions exactly when the cleaned reply parses to an object; an error carries the reply unmodified and the `Error parsing questions: ` prefix |
| QuestionParsing.ApiQuestions | app.py:58-69 | `api_questions` from the model's reply on answers 200 exactly when the cleaned reply parses to an object, and otherwise 500 with the unmodified reply under `raw` and no `questions` key |
| QuestionParsing.PageFor | app.py:136-143 | the parse error is set exactly when parsing failed, and then the questions are `None`; on success the page gets the parsed questions; the raw reply and the extracted text reach the page unmodified |
| QuestionParsing.AskQuestionsPage | app.py:129-143 | `ask_questions` from the model's reply on: the reply and the extracted text reach the page unmodified, there is no parse error exactly when the cleaned reply parses to an object, and an error comes with `None` questions and the `Error parsing questions: ` prefix |
| QuestionParsing.NullQuestionsReachPageAsNone | app.py:137-139 | a reply whose `questions` value is JSON `null` gives the page `None` questions and no parse error |
| QuestionParsing.RoutesAgree | app.py:136-142 | the two copies of the parsing code agree: the JSON route answers 200 exactly when the page has no parse error, then with the same questions, and otherwise with the same error message |
| AnswerForm.AnswerFields | app.py:105-108 | the filtered answers hold exactly the form fields whose key starts with `q_`, each with its form value, in form order; nothing is added or dropped |
| AnswerForm.CollectAnswers | app.py:105-108 | the insertion loop builds exactly the filtered answers |
| AnswerForm.SubmitAnswers | app.py:105-116 | the POST branch returns the filtered answers and `literal_eval` of the `questions_json` field (empty text when the field is missing), None on failure |
| QaReport.PairQuestions | app.py:80-84 | one block per question, in list order; block `idx` has the question's `q` text, or `Question {idx+1}`, and the answer `q_{idx}`, or `[No answer]` |
| QaReport.ListAnswers | app.py:85-87 | with no questions, one `key: value` line per answer, in dict order |
| QaReport.SessionReport | app.py:79-88 | the report is the header, then the Q/A blocks when questions were sent or the answer lines otherwise, then the footer |
| QaReport.DefaultLabelIsOneBased | app.py:82 | the number in a default question label is the question's 1-based position |
| QaReport.AnswerKeyIsZeroBased | app.py:83 | the number in an answer key is the question's 0-based position |
| QaReport.AnswerKeysDistinct | app.py:83 | different questions look up different answer fields |
| QaReport.ReportSeesCollectedAnswer | app.py:105-108 | the `q_` form filter keeps every `q_{idx}` key the report looks up: in the filtered answers, question `idx` finds the form's `q_{idx}` value, or `[No answer]` when the form has none |

## Left out

- Flask routing, request objects, `render_template`, `redirect` and `url_for`: web plumbing. The handlers are modelled from the model's reply, the form or the submitted data on.
- File upload, saving, temp-file reading and writing, `uuid` and `os.makedirs`: filesystem I/O.
- `extract_text_from_pdf` (pdfminer): a wrapper around a foreign library.
- `get_questions_from_gemini`: prompt building and a network call. The raw reply is an input of the model.
- The internals of `json.loads` and `ast.literal_eval`: they are function parameters that succeed or fail.
- `print`: the report's lines are returned as a sequence. The newline `print` appends is not included. The `User Answers:` debug print is not modelled.
- Json.Value: JSON numbers are integers only, so floats are not modelled.
- QaReport.PairQuestions: each question and the submitted answers are modelled as dicts of strings. Non-string values, which Python formats with `str()`, are not modelled. A question that is not a dict makes `q.get` raise and Flask answer with status 500; that path is not modelled either.
- QaReport.SessionReport: the defaults of `data.get('answers', {})` and `data.get('questions', [])` belong to request decoding, which is not modelled. The method takes the two values directly, and any non-empty question list counts as "questions sent".
- AnswerForm.CollectAnswers: the form is the `items()` view of the request form, with one pair per key. Repeated form fields, where werkzeug keeps the first value, are not modelled separately.
- Strings are sequences of Unicode scalar values. Lone surrogates, which a Python `str` can hold, are not representable.
