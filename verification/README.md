# Quiz generation backend — Dafny model

A model of the logic of a small HTTP backend that turns a topic into a
multiple-choice quiz. A request to `POST /generate` trims the topic,
optionally downloads the topic's Wikipedia article and keeps its first
paragraphs under a soft length cap, asks an LLM for a quiz in JSON, recovers
and repairs the JSON reply, stores the payload and returns it. `GET /history`
reads the newest stored quizzes back, overlaying each record's `id`, `topic`
and `generated_at` onto the stored document.

Everything the code does around these steps is a parameter. That covers the
chat completion, the HTTP download with its HTML extraction, `json.loads`,
`json.dumps`, the database's identity and clock, and `datetime.isoformat`.
The model is purely functional: immutable datatypes and total functions.

| file | module | models |
|---|---|---|
| `wrappers.dfy` | `Wrappers` | `Option` and `Result`, used in place of exceptions |
| `json.dfy` | `JsonValues` | decoded JSON values, Python truthiness and type names |
| `text.dfy` | `Text` | `str.strip()` (Python's whitespace set) and `str.join` |
| `extraction.dfy` | `Extraction` | the span matched by `re.search(r"\{.*\}", text, re.DOTALL)` |
| `generator.dfy` | `Generator` | `generate_quiz_from_text` after the API call: recovery, `questions` check, repair pass |
| `scraper.dfy` | `Scraper` | `fetch_wikipedia_intro`: slug, URL, paragraph accumulation |
| `store.dfy` | `Store` | the `Quiz` record and the newest-first, limited history query |
| `api.dfy` | `Api` | `generate_quiz` and `get_history` |

Behaviour of the code worth knowing. The model follows it:

- The prompt template has no slot for the background text. `str.format`
  ignores the extra argument, so the downloaded text never reaches the
  model. `Generator.BackgroundNotInPrompt` and `Api.FetchNeverDecides` state
  this.
- The chat completion always uses `model="gpt-4o-mini"`
  (llm_quiz_generator.py:47), so the model name is not a parameter.
- `q.setdefault('answer', q['choices'][0] if q['choices'] else 'A')`
  evaluates its default even when `answer` is present. So a truthy
  `choices` that cannot be indexed by `0` fails the request even then. Such
  values are a number, a boolean or a non-empty object. A string `choices`
  yields its first character as the answer.
- Every failure of the generator reaches the caller of `POST /generate` as
  a 500 whose detail is the exception text (main.py:50-51).
  `Generator.Message` gives that text for each failure.

## Model

| member | source | states |
|---|---|---|
| Text.Strip | llm_quiz_generator.py:56 | `str.strip()`. Its own contract is only that the result is no longer than the input. What it keeps is stated by `Text.TrimStartSpec`, `Text.TrimEndSpec` and `Text.StripCharacterized` |
| Text.TrimStartSpec | llm_quiz_generator.py:56 | `lstrip` keeps a suffix of the input that does not start with whitespace, and everything it cuts off is whitespace |
| Text.TrimEndSpec | llm_quiz_generator.py:56 | `rstrip` keeps a prefix of the input that does not end with whitespace, and everything it cuts off is whitespace |
| Text.StripCharacterized | llm_quiz_generator.py:56 | the stripped text is a contiguous piece of the input, flanked only by whitespace, that neither starts nor ends with whitespace |
| Text.StripEmptyIffAllSpace | main.py:37-38 | stripping leaves nothing exactly when the input is all whitespace, which is when the endpoint refuses the topic |
| Text.StripUnique | main.py:37 | at most one string is a stripped form of a given string, so the characterisation of `Strip` determines it |
| Text.StripIdempotent | main.py:37 | stripping an already stripped topic or reply changes nothing |
| Extraction.SearchBounds | llm_quiz_generator.py:61 | returns the regex match as bounds that are the leftmost-then-longest `{`…`}` pair; returns none exactly when no `{` is followed later by a `}` |
| Extraction.BraceSpan | llm_quiz_generator.py:61-62 | `m.group(0)` exists exactly when some `{` has a later `}`, and it is the text of the leftmost-longest such pair, newlines included |
| Extraction.SearchMatchIsFirstToLast | llm_quiz_generator.py:61 | the matched span starts at the first `{` of the text and ends at its last `}` |
| Generator.Message | llm_quiz_generator.py:54-73 | the `str(e)` text of each failure, which becomes the 500 detail: a definition with no contract of its own. The texts are the four `RuntimeError` messages and Python's own `AttributeError`, `TypeError` and `KeyError` texts |
| Generator.Recover | llm_quiz_generator.py:56-70 | if the stripped reply parses, its value is the payload whatever the extracted span would give; otherwise the payload is the parse of the leftmost-longest brace span; no span fails with the stripped reply (`NoJson`); a span that does not parse fails with the stripped reply (`InvalidJson`) |
| Generator.AnswerDefault | llm_quiz_generator.py:77 | the default answer is the first choice of a non-empty list, the first character of a non-empty string, "A" for any falsy `choices`; a non-empty object raises a `KeyError` and a truthy boolean or number fails as not subscriptable, naming its Python type |
| Generator.RepairFields | llm_quiz_generator.py:76-77 | repair succeeds exactly when the default answer can be computed from the (defaulted) choices; on success it adds exactly `choices`/`answer`, keeps every present key's value, defaults missing `choices` to A–D and a missing answer to the default answer of the resulting choices |
| Generator.RepairQuestion | llm_quiz_generator.py:75-77 | a non-object question fails with Python's `setdefault` attribute error; an object is repaired as above and ends with both `choices` and `answer` |
| Generator.RepairAll | llm_quiz_generator.py:75-77 | succeeds exactly when every question repairs, then with the same count and order and each element the repair of the one at its index; otherwise the error of the first question that fails |
| Generator.RepairPayload | llm_quiz_generator.py:72-79 | fails with the missing-`questions` error exactly when the payload has no list-valued `questions`; on success keeps every other key and the key set, and every question is repaired from the original at the same index and complete; otherwise reports the first failing question |
| Generator.RepairIdempotent | llm_quiz_generator.py:75-77 | repairing an already repaired payload returns it unchanged |
| Generator.RepairTotal | llm_quiz_generator.py:75-77 | a payload whose questions are objects whose `choices` is absent, null or a list (the declared question shape) is always repaired |
| Generator.GenerateQuizFromText | llm_quiz_generator.py:38-79 | an API failure yields the request-failed error; otherwise the outcome is recovery followed by repair of the reply; a successful payload has a `questions` list whose every element has `choices` and `answer` |
| Generator.BackgroundNotInPrompt | llm_quiz_generator.py:20-43 | the generator's outcome does not depend on the background text, because the template has no slot for it |
| Text.Join | scraper.py:26-29 | `sep.join(parts)`: a definition with no contract of its own. `Scraper.JoinPrefixMonotone` states that the join of a prefix is no longer than the join of the whole |
| Scraper.Slug | scraper.py:9 | same length as the topic; every space becomes `_`, every other character is kept |
| Scraper.WikiUrl | scraper.py:10 | the URL is `https://en.wikipedia.org/wiki/` followed by the topic with spaces turned into underscores |
| Scraper.NonEmpty | scraper.py:22-25 | the appended texts are non-empty, come from the page, and include every non-empty text of the page |
| Scraper.NonEmptyAppend | scraper.py:22-25 | skipping empty texts distributes over concatenation, so the kept texts stay in document order |
| Scraper.CollectFrom | scraper.py:21-27 | from any state within the cap, the loop keeps a prefix of the remaining non-empty texts; every intermediate state stays within the cap, and it stops with everything or with the join past the cap |
| Scraper.CollectParagraphs | scraper.py:21-27 | the kept paragraphs are the shortest prefix of the non-empty texts whose space-join exceeds 1000 characters (kept in full), or all of them when none does |
| Scraper.SoftCapPrefixUnique | scraper.py:21-27 | exactly one prefix satisfies that stopping rule, so it pins the result down |
| Scraper.UnderCapKeepsAll | scraper.py:22-27 | when the space-join of all non-empty texts stays within 1000 characters, all of them are kept |
| Scraper.FetchIntro | scraper.py:9-29 | the download is made at the article URL; a failed download fails, a page without the content container fails with `NoContent`; otherwise the result is the kept paragraphs joined by blank lines, or "" when none is kept |
| Store.Insert | main.py:62 | inserting into a newest-first list keeps it newest first and adds exactly the new record |
| Store.SortNewestFirst | main.py:62 | the ordering by `generated_at` descending is a permutation of the table and newest first |
| Store.QueryHistory | main.py:62 | returns `limit` rows (all rows when there are fewer or the limit is negative), newest first, drawn from the table, and no row left out is newer than a row returned |
| Store.NewestRecordFirst | main.py:62 | a record strictly newer than all others heads every non-empty history query |
| Api.Background | main.py:41-46 | the background is "" when the article is not wanted, when the download fails and when the container is missing; otherwise it is the blank-line join of the kept paragraphs |
| Api.GenerateQuiz | main.py:36-58 | a topic that strips to nothing gives 400 with the table untouched; otherwise a generator failure (for the stripped topic, with the background left out since it cannot matter) gives 500 with the error's message and the table untouched; success returns the generator's payload unchanged, with a `questions` list of complete questions, and appends exactly one record with the stripped topic, the given id and time, and the serialized payload |
| Api.BlankTopicRefused | main.py:37-39 | a whitespace-only topic is refused with 400 and the table unchanged |
| Api.FetchNeverDecides | main.py:41-49 | the response and the resulting table are the same whatever the download returns |
| Api.Overlay | main.py:69-71 | the entry has the stored keys plus `id`, `topic` and `generated_at`, which carry the record's values; every other stored key keeps its value |
| Api.Entry | main.py:65-71 | an unparsable `raw_output` gives `{raw_output: <original text>}` plus the overlay; a stored object keeps its keys under the overlay; a stored non-object makes the entry fail |
| Api.Entries | main.py:63-73 | one entry per row, in row order, each the entry of its row; fails exactly when some row cannot take the overlay |
| Api.GetHistory | main.py:61-73 | the listing has one entry per row of the history query, newest first, `RowCount(|db|, limit)` of them: at most `limit` when it is non-negative, all rows when it is negative; each is the entry of its record |
| Api.HistoryRoundTrip | main.py:65-71 | a record holding a payload that `json.loads` reads back as written yields that payload with the overlay keys set |
| Api.NewestRowHeadsHistory | main.py:62-71 | a newest row with such a payload is the first history entry, and its `questions` are the stored ones |
| Api.GenerateThenHistory | main.py:53-71 | after a successful generation with a later timestamp than every stored row, the first history entry is the returned payload with the new row's identity overlaid, with the same `questions` |

## Left out

- The chat-completion call and the shape of its response. `llm` maps the
  prompt parameters to the reply content or to the error text.
- The HTTP download, `raise_for_status`, BeautifulSoup and
  `get_text(strip=True)`. `get` maps the URL to a failure, to a page without
  the `mw-content-text` container, or to the stripped texts of its `<p>`
  elements. The user agent and the 10-second timeout are not modelled.
- `json.loads` and `json.dumps` are the parameters `parse` and `serialize`.
  The round trip `parse(serialize(p)) == Some(p)` is a precondition of the
  lemmas that need it.
- The prompt text. `Prompt` records the values the template interpolates,
  the topic and the question count. The template's wording is not modelled.
- Python's dictionary key order. Objects are maps, so the position of keys
  added by `setdefault` or the overlay is not represented.
- JSON numbers are `JInt` or `JFloat` (a real). NaN and infinities are not
  modelled.
- Generator.RepairPayload: a top-level payload that is not an object is
  rejected with the missing-`questions` error. In Python, `null`, a boolean
  or a number raises a `TypeError` from `in`. A list or string that does not
  contain "questions" gets the missing-`questions` error, as in the model.
  Only a list or string containing "questions" differs: it raises a
  `TypeError` from indexing, which reaches the caller as a 500 with another
  detail text.
- Api.Entry: a stored document that decodes to a non-object fails the whole
  listing, as in the source. The exact Python error text is not modelled.
- `NULL` values in the `topic` and `raw_output` columns, and a `null`
  `num_questions`, are not modelled.
- Request parsing and its defaults (`num_questions=5` and `use_wikipedia=True`
  at main.py:32-33, `limit=20` at main.py:61) are the caller's job:
  `Api.Request` and `GetHistory` take explicit values. A `null`
  `use_wikipedia` is falsy, so it is modelled as `false`.
- Timestamps are integers and `isoformat` is the parameter `iso`.
  `generated_at` and `id` of a new row are the parameters `now` and `newId`.
- Store.QueryHistory: SQL leaves the order among equal timestamps open. The
  model fixes one order, an insertion sort. A negative limit follows
  SQLite's reading of "no limit".
- Failures of the database write, sessions, commit and refresh.
- Configuration read at import time: the API key check and the database
  URL. Also logging, FastAPI routing, CORS, uvicorn, the `/health` endpoint
  and concurrency between requests.
- The schema in `dadabase.py` appears only as the shape of `Store.Record`.
  `main.py` imports it under the name `database`.
