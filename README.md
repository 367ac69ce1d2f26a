# Nepal legal question answering: a Dafny model of the retrieval pipeline

The service answers questions about the National Penal Code of Nepal,
2017. A question goes to the `POST /ask` handler. The handler rejects a
blank question. Otherwise it runs `answer_question`, which does four
things:

1. It asks the vector store for the nearest law record (k = 1).
2. It drops hits whose `section-subsection` key an earlier hit already had.
3. It renders the records as `[Chapter c Section s] text` entries, joins
   them with blank lines and cuts the result to 1000 characters.
4. It fills the `LEGAL_PROMPT` template with that context and the question,
   and returns what the language model generates for the prompt.

The handler returns the answer with status "success", or turns any
failure into an HTTP error.

This project models that path in five modules:

- `Python` (python.dfy) holds the parts of Python the code relies on:
  - `str.isspace` and `str.strip`, over the exact set of characters Python
    counts as whitespace;
  - `str.join`;
  - slicing `s[:n]`;
  - `str.format` with keyword arguments, including its `{{`/`}}` escapes
    and its errors;
  - exceptions, as an `Outcome` that either returns a value or raises.
- `Prompts` (prompts.dfy) holds the template, character for character, as
  typed brace-free lines. It proves:
  - each placeholder occurs exactly once;
  - there is no other brace;
  - the refusal sentence is present;
  - formatting the template cannot fail.
- `VectorStore` (vector_store.dfy) holds the first-occurrence
  de-duplication as a specification function with its properties. The
  class `LegalVectorStore` has a `Search` method whose loop, with its
  `seen` set, is proved to compute that function.
- `RagPipeline` (rag_pipeline.dfy) holds context assembly, prompt
  rendering and `answer_question`. `answer_question` is a method over the
  store, with retrieval and generation as parameters.
- `Api` (main.dfy) holds validation and the mapping of results and
  exceptions to replies.

Three behaviours of the code are easy to miss:

- **De-duplication key.** The key is the text `f"{section}-{subsection}"`,
  not a pair. So an absent subsection gives the same key as the text
  "None", and pairs such as ("1-2", "3") and ("1", "2-3") collide.
  `AbsentSubsectionKey` and `DashCollision` state this.
- **Empty question.** An empty or all-whitespace question gets an HTTP
  400 with the detail "Question cannot be empty", before the pipeline
  runs.
- **Empty index.** With an empty index, the flat index pads its answer
  for k = 1 with the row -1. `metadata[-1]` on an empty list then raises,
  so the request ends in a 500. The model takes the hits as given and
  requires them to be in range. It proves what the pipeline does with no
  hit at all (`NoHitsAnswer`). The padding is not modelled.

## Model

| member | source | states |
|---|---|---|
| Python.Strip | production-api/backend/main.py:79 | `question.strip()` is the slice of the question between its leading and trailing whitespace, and a non-empty result starts and ends with a non-whitespace character |
| Python.StripEmptyIffAllSpace | production-api/backend/main.py:79 | `strip()` yields the empty string exactly when every character is whitespace |
| Python.JoinLayout | production-api/backend/rag_pipeline.py:44-47 | in `sep.join(parts)` each part sits at its offset, the separator sits between neighbours, and the last part ends the string |
| Python.Truncate | production-api/backend/rag_pipeline.py:50 | `s[:n]` is a prefix of `s` of at most `n` characters; it is `s` itself when `s` fits and has exactly `n` characters otherwise |
| Python.Str | production-api/backend/main.py:124 | `str(e)` for the exceptions the handler can catch: a `KeyError` gives its key in single quotes, the others their message |
| Python.Format | production-api/backend/rag_pipeline.py:56 | `str.format` with keyword arguments, scanning left to right; a failure is a `ValueError` for a lone or unclosed brace, a `KeyError` naming a field that has no argument, or a field form outside the modelled subset |
| Python.FormatLiteral | production-api/backend/rag_pipeline.py:56 | `str.format` copies brace-free text unchanged, in front of whatever the rest of the template formats to |
| Python.FormatBraceFree | production-api/backend/rag_pipeline.py:56 | a brace-free template formats to itself for any arguments |
| Python.FormatPlaceholder | production-api/backend/rag_pipeline.py:56 | a `{name}` field for a supplied keyword argument is replaced by that argument's text |
| Prompts.RenderPrompt | production-api/backend/rag_pipeline.py:56 | the prompt is the template's head, the context, the text between the placeholders, the question and the template's tail |
| Prompts.TemplateBraces | production-api/backend/prompts.py:3-41 | in any template made of brace-free fixed parts around `{context}` and then `{question}`, a character is a brace exactly when it delimits one of the two placeholders, and a `{` exactly when it opens one |
| Prompts.TemplateContextOnce | production-api/backend/prompts.py:29 | in such a template `{context}` occurs at a position if and only if that position is the end of the head |
| Prompts.TemplateQuestionOnce | production-api/backend/prompts.py:33 | in such a template `{question}` occurs at a position if and only if that position is the end of the middle part |
| Prompts.RefusalInHead | production-api/backend/prompts.py:25 | a head whose lines include the refusal sentence in quotation marks holds that line right after the line break and the lines before it |
| Prompts.BracePositions | production-api/backend/prompts.py:3-41 | the only braces of `LEGAL_PROMPT` are the four delimiting `{context}` and `{question}`, and the only two `{` open them |
| Prompts.ContextPlaceholderOnce | production-api/backend/prompts.py:29 | `{context}` occurs at a position if and only if that position is `ContextAt` |
| Prompts.QuestionPlaceholderOnce | production-api/backend/prompts.py:33 | `{question}` occurs at a position if and only if that position is `QuestionAt`, which lies after `{context}` |
| Prompts.RefusalVerbatim | production-api/backend/prompts.py:25 | the line holding the refusal sentence between quotation marks occurs in the template at `RefusalAt` |
| Prompts.FormatTemplate | production-api/backend/prompts.py:29-33 | a template of the shape head `{context}` middle `{question}` tail with brace-free fixed parts formats to the parts with the two arguments in place |
| Prompts.FormatLegalPrompt | production-api/backend/rag_pipeline.py:56 | `LEGAL_PROMPT.format(context=c, question=q)` never raises; it returns the template with `c` and `q` in place of the placeholders and every other character unchanged |
| Prompts.RenderPromptFormats | production-api/backend/rag_pipeline.py:56 | the prompt handed to the model is the successful result of `LEGAL_PROMPT.format` on the context and the question |
| Prompts.RenderedBraceFree | production-api/backend/rag_pipeline.py:56 | a context and question without braces give a prompt without braces, so no placeholder text is left behind |
| VectorStore.DedupKey | production-api/vectorstore/vector_store.py:85 | the key is the text of `item.get('section')`, a dash and the text of `item.get('subsection')`, where an absent field gives "None" |
| VectorStore.DedupKeyParts | production-api/vectorstore/vector_store.py:85 | the key consists of the section text, then a dash right after it, then the subsection text, and nothing else |
| VectorStore.Resolve | production-api/vectorstore/vector_store.py:83-84 | the ranked row indices resolve to the metadata records at those rows, one record per hit, in rank order |
| VectorStore.Dedupe | production-api/vectorstore/vector_store.py:80-89 | the kept records are no more than the hits, have pairwise distinct keys, cover every key among the hits, and are all hit records |
| VectorStore.FirstIndicesExact | production-api/vectorstore/vector_store.py:83-89 | the positions kept increase strictly, and a position is kept if and only if its record is the first with its key |
| VectorStore.DedupeAtFirstIndices | production-api/vectorstore/vector_store.py:83-89 | kept record m is the hit record at the m-th kept position, so the output follows rank order of first occurrence |
| VectorStore.DedupeIdentity | production-api/vectorstore/vector_store.py:80-89 | de-duplication leaves a list unchanged if and only if its keys are already pairwise distinct |
| VectorStore.DedupeIdempotent | production-api/vectorstore/vector_store.py:80-89 | de-duplicating the result again gives the same list |
| VectorStore.DedupeExample | production-api/vectorstore/vector_store.py:85-89 | records keyed "3-1", "3-1", "4-2" keep the first and the third, in that order |
| VectorStore.AbsentSubsectionKey | production-api/vectorstore/vector_store.py:85 | an absent subsection renders as "None" in the key, the same as a subsection whose text is "None" |
| VectorStore.DashCollision | production-api/vectorstore/vector_store.py:85-88 | the records ("1-2", "3") and ("1", "2-3") differ but share the key "1-2-3", so the second is dropped |
| VectorStore.SearchResultsFromHits | production-api/vectorstore/vector_store.py:83-89 | the search returns at most as many records as hits, each one the metadata record of some hit |
| VectorStore.SearchStep | production-api/vectorstore/vector_store.py:85-89 | one loop step keeps the next hit's record exactly when its key is not among the keys kept so far, and keeping it adds exactly that key |
| VectorStore.LegalVectorStore.constructor | production-api/vectorstore/vector_store.py:36-39 | the store keeps the loaded metadata records, row for row |
| VectorStore.LegalVectorStore.Search | production-api/vectorstore/vector_store.py:80-118 | the loop with its fresh `seen` set returns exactly the de-duplicated hit records, a function of the metadata and the hits alone |
| RagPipeline.RenderEntry | production-api/backend/rag_pipeline.py:45 | rendering a record fails, with a `KeyError` for `chapter`, `section` or `text`, exactly when it lacks one of those fields |
| RagPipeline.RenderEntries | production-api/backend/rag_pipeline.py:44-47 | the records render to one entry each exactly when every record renders |
| RagPipeline.RenderEntriesInOrder | production-api/backend/rag_pipeline.py:44-47 | when every record renders, entry i is the rendering of record i |
| RagPipeline.RenderEntriesFirstError | production-api/backend/rag_pipeline.py:44-47 | a failure is the error of the first record that does not render, all earlier ones rendering |
| RagPipeline.FullContext | production-api/backend/rag_pipeline.py:44-47 | the entries joined by blank lines; it fails exactly when some record cannot be rendered, with a `KeyError` for `chapter`, `section` or `text` |
| RagPipeline.BuildContext | production-api/backend/rag_pipeline.py:44-50 | the context is at most 1000 characters, a prefix of the joined entries, and equal to them when they fit; it fails exactly when rendering fails, with the same error |
| RagPipeline.EmptyContext | production-api/backend/rag_pipeline.py:44-47 | no retrieved record gives the empty context |
| RagPipeline.ContextLayout | production-api/backend/rag_pipeline.py:44-50 | when the entries fit, each record's entry sits in the context at its offset, followed by a blank line when another follows |
| RagPipeline.SingleRecordContext | production-api/backend/rag_pipeline.py:44-50 | one record whose entry fits in 1000 characters gives exactly that entry as the context |
| RagPipeline.TheftContext | production-api/backend/rag_pipeline.py:44-50 | the record chapter "5", section "12", "Theft is penalized by imprisonment" gives the context "[Chapter 5 Section 12] Theft is penalized by imprisonment" |
| RagPipeline.SingleHitContext | production-api/backend/rag_pipeline.py:31-50 | with the single hit that k = 1 asks for, the context is that record's entry cut to 1000 characters |
| RagPipeline.Answer | production-api/backend/rag_pipeline.py:22-72 | the answer to a question: search, build the context, fill the template and return what the model generates with a budget of 96 tokens; a context error is raised instead |
| RagPipeline.AnswerIsGenerated | production-api/backend/rag_pipeline.py:56-72 | the answer is the model's output for the formatted template, returned unchanged; otherwise it is the `KeyError` of a record that does not render |
| RagPipeline.NoHitsAnswer | production-api/backend/rag_pipeline.py:44-63 | with no hits the prompt is still rendered, with an empty law-text section, and sent to the model |
| RagPipeline.AnswerQuestion | production-api/backend/rag_pipeline.py:22-72 | the method searches with k = 1, builds the context, renders the prompt and returns the model's output with a budget of 96 tokens, as `Answer` specifies |
| Api.Ask | production-api/backend/main.py:75-124 | the handler rejects a blank question with 400, replies with the pipeline's answer and status "success", and otherwise fails only with an HTTP error: 400, 500, or the pipeline's own `HTTPException` |
| Api.BlankIffAllSpace | production-api/backend/main.py:79 | `not q or not q.strip()` holds exactly when every character of `q` is whitespace |
| Api.AskRejectsBlank | production-api/backend/main.py:79-81 | an empty or whitespace-only question gets a 400 "Question cannot be empty", whatever the pipeline would do, so the pipeline is not consulted |
| Api.AskSucceeds | production-api/backend/main.py:91-113 | the handler succeeds exactly when the question is not blank and the pipeline returns, and the reply is the pipeline's answer with status "success" |
| Api.AskFailures | production-api/backend/main.py:115-124 | every failure leaves as an HTTP error: one the pipeline raised passes through unchanged, and any other becomes a 500 with detail "Error: " and its text |
| Api.MissingChapterIsServerError | production-api/backend/main.py:119-124 | a retrieved record without `chapter` makes the request fail with a 500 and the detail "Error: 'chapter'" |

## Left out

- The sentence encoder and the FAISS index are not modelled. They are
  floating-point, foreign code (vector_store.py:25, 46-47, 63, 69). The
  ranked row indices they produce are an input: `hits` in `Search`, and
  `nearest` in `AnswerQuestion`.
- LegalVectorStore.Search: the hit indices are required to lie within the
  metadata. So FAISS's padding index -1, and Python's wrap-around
  `metadata[-1]`, are not modelled.
- AnswerQuestion: the indices `nearest` returns carry the same
  requirement, for the same reason.
- Loading the embeddings and the metadata files (vector_store.py:30,
  38-39) is I/O. The store is built from an already loaded list of
  records, assumed aligned with the index rows.
- LegalVectorStore.constructor: it does not hold the embedder, the
  embedding matrix or the index. Those are the foreign parts above.
- Metadata values are modelled as the text `str()` gives for them. The
  f-strings render values that way. A record's JSON `null` and an absent
  field both render as "None" in the key. Non-text values are not
  distinguished otherwise.
- The language model (backend/llm.py) is a parameter `generate`. It takes
  the prompt and the token budget and may return or raise. Sampling
  settings, the prompt wrapping inside it and its own `strip()` are not
  modelled.
- The module-level construction of the store and the model
  (rag_pipeline.py:11-18) is replaced by passing them in as parameters.
- Logging, request ids, timing, the answer preview, FastAPI setup, CORS,
  the health endpoints and the uvicorn launch (main.py:1-73, 93-101,
  127-130) have no effect on results and are left out. The one log call
  that can change a result is in `search`; see the next line.
- LegalVectorStore.Search: the summary log after the loop
  (vector_store.py:107-112) computes `len(item.get('text', ''))` for every
  kept record. A record whose `text` is JSON null or a number makes that
  call raise `TypeError`. The search then fails, and `ask` answers with a
  500 such as "Error: object of type 'NoneType' has no len()". The model
  renders every value as text, so it answers such a record normally.
- Request-body validation by Pydantic is left out. A missing or non-text
  `question` gets a 422 before `ask` runs.
- config/settings.py is not used by the modelled path and is not part of
  this model.
- Python.Format: only the subset of `str.format` the template needs is
  modelled. A field with a conversion, a format spec, attribute or index
  access, or a positional reference is reported as `FormatNotModelled`
  instead of being evaluated. The template has no such field.
- Python.Str: only the exception kinds the modelled code can raise are
  given a text. A `KeyError`'s text is its key in single quotes.
