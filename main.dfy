/** The `POST /ask` handler: reject a blank question, run the pipeline,
    and turn every failure into an HTTP error. */
module Api {
  import opened Python
  import opened VectorStore
  import opened RagPipeline

  /** The JSON body of a successful reply. */
  datatype Reply = Reply(answer: string, status: string)

  const BadRequest: int := 400
  const ServerError: int := 500
  const EmptyQuestionDetail: string := "Question cannot be empty"

  /** `not question or not question.strip()`. */
  predicate IsBlank(question: string) {
    question == [] || Strip(question) == []
  }

  /** The handler for the question `question`; `answerQuestion` stands
      for the pipeline. An `HTTPException` from inside the `try` block is
      re-raised as it is; any other exception becomes a 500 whose detail
      is "Error: " followed by its text. */
  function Ask(question: string, answerQuestion: string -> Outcome<string>): (r: Outcome<Reply>)
    ensures r.Raised? ==> && r.error.HTTPException?
                          && (|| r.error.statusCode == BadRequest
                              || r.error.statusCode == ServerError
                              || (answerQuestion(question).Raised? && r.error == answerQuestion(question).error))
    ensures r.Returned? ==> r.value.status == "success"
  {
    if IsBlank(question) then Raised(HTTPException(BadRequest, EmptyQuestionDetail))
    else
      match answerQuestion(question)
      case Returned(answer) => Returned(Reply(answer, "success"))
      case Raised(e) =>
        if e.HTTPException? then Raised(e)
        else Raised(HTTPException(ServerError, "Error: " + Str(e)))
  }

  /** A question is blank exactly when every character of it is
      whitespace (the empty question included). */
  lemma BlankIffAllSpace(question: string)
    ensures IsBlank(question) <==> AllSpace(question)
  {
    StripEmptyIffAllSpace(question);
  }

  /** An empty or all-whitespace question is rejected with 400 before the
      pipeline runs: the reply does not depend on the pipeline at all. */
  lemma AskRejectsBlank(question: string, p: string -> Outcome<string>, p': string -> Outcome<string>)
    requires AllSpace(question)
    ensures Ask(question, p) == Raised(HTTPException(400, "Question cannot be empty"))
    ensures Ask(question, p) == Ask(question, p')
  {
    BlankIffAllSpace(question);
  }

  /** The handler succeeds exactly when the question has a non-whitespace
      character and the pipeline returns; the reply then carries the
      pipeline's answer unchanged. */
  lemma AskSucceeds(question: string, p: string -> Outcome<string>)
    ensures Ask(question, p).Returned? <==> !AllSpace(question) && p(question).Returned?
    ensures Ask(question, p).Returned? ==> Ask(question, p).value == Reply(p(question).value, "success")
  {
    BlankIffAllSpace(question);
  }

  /** Every failure leaves the handler as an `HTTPException`: one the
      pipeline raised keeps its status and detail, and any other becomes
      a 500 carrying the exception's text. */
  lemma AskFailures(question: string, p: string -> Outcome<string>)
    requires !AllSpace(question) && p(question).Raised?
    ensures Ask(question, p).Raised? && Ask(question, p).error.HTTPException?
    ensures p(question).error.HTTPException? ==> Ask(question, p) == Raised(p(question).error)
    ensures !p(question).error.HTTPException? ==>
      Ask(question, p) == Raised(HTTPException(500, "Error: " + Str(p(question).error)))
  {
    BlankIffAllSpace(question);
  }

  /** A retrieved record without a `chapter` field makes the request fail
      with a 500 whose detail is "Error: 'chapter'". */
  lemma MissingChapterIsServerError(metadata: seq<Document>, hit: nat, generate: (string, nat) -> Outcome<string>,
                                    question: string)
    requires hit < |metadata| && "chapter" !in metadata[hit]
    requires !AllSpace(question)
    ensures Ask(question, q => Answer(metadata, [hit], generate, q))
         == Raised(HTTPException(500, "Error: 'chapter'"))
  {
    BlankIffAllSpace(question);
    SingleHitContext(metadata, [hit]);
    var docs := [metadata[hit]];
    assert RenderEntries(docs) == Raised(KeyError("chapter"));
    assert Answer(metadata, [hit], generate, question) == Raised(KeyError("chapter"));
    assert "Error: " + ("'" + "chapter" + "'") == "Error: 'chapter'";
  }
}
