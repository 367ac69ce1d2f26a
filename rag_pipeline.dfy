/** `answer_question`: retrieve the nearest law records, render them as
    the law-text context, fill the prompt template and hand the prompt to
    the language model. */
module RagPipeline {
  import opened Python
  import opened Prompts
  import opened VectorStore

  /** The number of nearest records retrieved per question. */
  const TopK: nat := 1

  /** The context is cut to this many characters. */
  const MaxContextChars: nat := 1000

  /** The token budget passed to the language model. */
  const MaxNewTokens: nat := 96

  const EntrySeparator: string := "\n\n"

  /** `f"[Chapter {item['chapter']} Section {item['section']}] {item['text']}"`:
      the fields are looked up in that order, and the first one missing
      raises `KeyError`. */
  function RenderEntry(item: Document): (r: Outcome<string>)
    ensures r.Raised? <==> "chapter" !in item || "section" !in item || "text" !in item
    ensures r.Raised? ==> r.error.KeyError? && r.error.key in ["chapter", "section", "text"]
  {
    if "chapter" !in item then Raised(KeyError("chapter"))
    else if "section" !in item then Raised(KeyError("section"))
    else if "text" !in item then Raised(KeyError("text"))
    else Returned("[Chapter " + item["chapter"] + " Section " + item["section"] + "] " + item["text"])
  }

  /** The entries of the retrieved records in retrieval order, or the
      error of the first record that cannot be rendered. */
  function RenderEntries(docs: seq<Document>): (r: Outcome<seq<string>>)
    ensures r.Returned? ==> |r.value| == |docs|
    ensures r.Returned? <==> forall i | 0 <= i < |docs| :: RenderEntry(docs[i]).Returned?
    ensures r.Raised? ==> r.error.KeyError? && r.error.key in ["chapter", "section", "text"]
  {
    if docs == [] then Returned([])
    else
      match RenderEntry(docs[0])
      case Raised(e) => Raised(e)
      case Returned(entry) =>
        match RenderEntries(docs[1..])
        case Raised(e) => Raised(e)
        case Returned(rest) => Returned([entry] + rest)
  }

  /** The context before truncation: the entries joined by blank lines. */
  function FullContext(docs: seq<Document>): (r: Outcome<string>)
    ensures r.Raised? <==> exists i | 0 <= i < |docs| :: RenderEntry(docs[i]).Raised?
    ensures r.Raised? ==> r.error.KeyError? && r.error.key in ["chapter", "section", "text"]
  {
    match RenderEntries(docs)
    case Raised(e) => Raised(e)
    case Returned(entries) => Returned(Join(entries, EntrySeparator))
  }

  /** The context the prompt receives: the joined entries, cut to
      `MaxContextChars` characters. */
  function BuildContext(docs: seq<Document>): (r: Outcome<string>)
    ensures r.Raised? <==> FullContext(docs).Raised?
    ensures r.Raised? ==> r.error == FullContext(docs).error
    ensures r.Returned? ==> |r.value| <= MaxContextChars && r.value <= FullContext(docs).value
    ensures r.Returned? && |FullContext(docs).value| <= MaxContextChars ==> r.value == FullContext(docs).value
  {
    match FullContext(docs)
    case Raised(e) => Raised(e)
    case Returned(full) => Returned(Truncate(full, MaxContextChars))
  }

  /** Entry `i` is the rendering of record `i`. */
  lemma {:induction false} RenderEntriesInOrder(docs: seq<Document>)
    requires RenderEntries(docs).Returned?
    ensures forall i | 0 <= i < |docs| :: RenderEntries(docs).value[i] == RenderEntry(docs[i]).value
  {
    if docs != [] {
      RenderEntriesInOrder(docs[1..]);
      assert forall i | 1 <= i < |docs| :: docs[i] == docs[1..][i - 1];
    }
  }

  lemma {:induction false} EntryAt(docs: seq<Document>, k: nat)
    requires RenderEntries(docs).Returned? && k < |docs|
    ensures RenderEntries(docs).value[k] == RenderEntry(docs[k]).value
  {
    RenderEntriesInOrder(docs);
  }

  /** A failure is the error of the first record that cannot be rendered:
      every record before it renders. */
  lemma {:induction false} RenderEntriesFirstError(docs: seq<Document>)
    requires RenderEntries(docs).Raised?
    ensures exists i | 0 <= i < |docs| ::
      && RenderEntry(docs[i]).Raised?
      && RenderEntries(docs).error == RenderEntry(docs[i]).error
      && forall j | 0 <= j < i :: RenderEntry(docs[j]).Returned?
  {
    if RenderEntry(docs[0]).Raised? {
      assert RenderEntries(docs).error == RenderEntry(docs[0]).error;
    } else {
      RenderEntriesFirstError(docs[1..]);
      var i :| 0 <= i < |docs[1..]| && RenderEntry(docs[1..][i]).Raised?
        && RenderEntries(docs[1..]).error == RenderEntry(docs[1..][i]).error
        && forall j | 0 <= j < i :: RenderEntry(docs[1..][j]).Returned?;
      assert docs[i + 1] == docs[1..][i];
      assert forall j | 1 <= j < i + 1 :: docs[j] == docs[1..][j - 1];
    }
  }

  /** No retrieved record gives an empty context. */
  lemma EmptyContext()
    ensures BuildContext([]) == Returned("")
  {
  }

  lemma {:induction false} ContextIsJoin(docs: seq<Document>)
    requires RenderEntries(docs).Returned?
    requires |FullContext(docs).value| <= MaxContextChars
    ensures BuildContext(docs).value == Join(RenderEntries(docs).value, EntrySeparator)
  {
  }

  lemma {:induction false} EntriesLayout(entries: seq<string>, context: string, k: nat)
    requires k < |entries| && context == Join(entries, EntrySeparator)
    ensures var at := Offset(entries, EntrySeparator, k);
      && at + |entries[k]| <= |context|
      && context[at..at + |entries[k]|] == entries[k]
      && (k + 1 < |entries| ==>
            && at + |entries[k]| + |EntrySeparator| <= |context|
            && context[at + |entries[k]|..at + |entries[k]| + |EntrySeparator|] == EntrySeparator)
  {
    JoinLayout(entries, EntrySeparator, k);
  }

  /** When the entries fit, entry `k` sits in the context at its offset,
      with a blank line between it and the next one. */
  lemma {:induction false} ContextLayout(docs: seq<Document>, k: nat)
    requires RenderEntries(docs).Returned? && k < |docs|
    requires |FullContext(docs).value| <= MaxContextChars
    ensures var entries := RenderEntries(docs).value;
      var context := BuildContext(docs).value;
      var at := Offset(entries, EntrySeparator, k);
      && at + |entries[k]| <= |context|
      && context[at..at + |entries[k]|] == RenderEntry(docs[k]).value
      && (k + 1 < |docs| ==>
            && at + |entries[k]| + |EntrySeparator| <= |context|
            && context[at + |entries[k]|..at + |entries[k]| + |EntrySeparator|] == EntrySeparator)
  {
    ContextIsJoin(docs);
    EntryAt(docs, k);
    EntriesLayout(RenderEntries(docs).value, BuildContext(docs).value, k);
  }

  /** One record whose rendering fits gives exactly that rendering. */
  lemma {:induction false} SingleRecordContext(item: Document)
    requires RenderEntry(item).Returned? && |RenderEntry(item).value| <= MaxContextChars
    ensures BuildContext([item]) == RenderEntry(item)
  {
    var docs := [item];
    assert docs[1..] == [];
    assert RenderEntries(docs[1..]) == Returned([]);
    var entry := RenderEntry(item).value;
    assert docs[0] == item;
    assert [entry] + [] == [entry];
    assert RenderEntries(docs) == Returned([entry]);
  }

  lemma TheftFields(item: Document)
    requires item == map["chapter" := "5", "section" := "12", "text" := "Theft is penalized by imprisonment"]
    ensures "chapter" in item && "section" in item && "text" in item
    ensures item["chapter"] == "5" && item["section"] == "12" && item["text"] == "Theft is penalized by imprisonment"
  {
  }

  lemma TheftText()
    ensures "[Chapter " + "5" + " Section " + "12" + "] " + "Theft is penalized by imprisonment"
         == "[Chapter 5 Section 12] Theft is penalized by imprisonment"
  {
    assert "[Chapter " + "5" + " Section " + "12" + "] " == "[Chapter 5 Section 12] ";
  }

  lemma TheftEntry(item: Document)
    requires item == map["chapter" := "5", "section" := "12", "text" := "Theft is penalized by imprisonment"]
    ensures RenderEntry(item) == Returned("[Chapter 5 Section 12] Theft is penalized by imprisonment")
  {
    TheftFields(item);
    TheftText();
  }

  /** A single record with chapter "5", section "12" and the text "Theft
      is penalized by imprisonment" gives exactly its bracketed rendering. */
  lemma TheftContext()
    ensures BuildContext([map["chapter" := "5", "section" := "12", "text" := "Theft is penalized by imprisonment"]])
         == Returned("[Chapter 5 Section 12] Theft is penalized by imprisonment")
  {
    var item: Document := map["chapter" := "5", "section" := "12", "text" := "Theft is penalized by imprisonment"];
    TheftEntry(item);
    SingleRecordContext(item);
  }

  /** The answer `answer_question` gives for the question `question`,
      whose nearest records are at the positions `hits`; `generate`
      stands for the language model. */
  function Answer(metadata: seq<Document>, hits: seq<nat>, generate: (string, nat) -> Outcome<string>,
                  question: string): Outcome<string>
    requires forall i | 0 <= i < |hits| :: hits[i] < |metadata|
  {
    match BuildContext(SearchResults(metadata, hits))
    case Raised(e) => Raised(e)
    case Returned(context) => generate(RenderPrompt(context, question), MaxNewTokens)
  }

  /** The model's answer is returned unchanged, for the prompt that is
      the template filled with the context and the question; the only
      other outcome is the error of a record that cannot be rendered. */
  lemma {:induction false} AnswerIsGenerated(metadata: seq<Document>, hits: seq<nat>, generate: (string, nat) -> Outcome<string>,
                          question: string)
    requires forall i | 0 <= i < |hits| :: hits[i] < |metadata|
    ensures var context := BuildContext(SearchResults(metadata, hits));
      && (context.Returned? ==>
            && Format(LegalPrompt, PromptArgs(context.value, question)).Returned?
            && Answer(metadata, hits, generate, question)
               == generate(Format(LegalPrompt, PromptArgs(context.value, question)).value, MaxNewTokens))
      && (context.Raised? ==> Answer(metadata, hits, generate, question) == context && context.error.KeyError?)
  {
    var docs := SearchResults(metadata, hits);
    if BuildContext(docs).Raised? {
      RenderEntriesFirstError(docs);
    } else {
      RenderPromptFormats(BuildContext(docs).value, question);
    }
  }

  /** With one hit, the context is the rendering of that hit's record, cut
      to `MaxContextChars` characters. */
  lemma {:induction false} SingleHitContext(metadata: seq<Document>, hits: seq<nat>)
    requires |hits| == TopK && hits[0] < |metadata|
    ensures SearchResults(metadata, hits) == [metadata[hits[0]]]
    ensures BuildContext(SearchResults(metadata, hits))
         == match RenderEntry(metadata[hits[0]])
            case Raised(e) => Raised(e)
            case Returned(entry) => Returned(Truncate(entry, MaxContextChars))
  {
    var docs := Resolve(metadata, hits);
    assert docs == [metadata[hits[0]]];
    assert docs[..0] == [];
    assert docs[1..] == [];
  }

  /** No hit gives an empty context, and the prompt is still rendered and
      sent, with an empty law-text section. */
  lemma {:induction false} NoHitsAnswer(metadata: seq<Document>, generate: (string, nat) -> Outcome<string>, question: string)
    ensures Answer(metadata, [], generate, question)
         == generate(PromptHead + PromptMiddle + question + PromptTail, MaxNewTokens)
  {
    assert SearchResults(metadata, []) == [];
    EmptyContext();
    RenderWithoutContext(question);
  }

  /** `answer_question(question)` against the store `store`: `nearest`
      stands for encoding the question and querying the index, `generate`
      for the language model. */
  method AnswerQuestion(store: LegalVectorStore, nearest: (string, nat) -> seq<nat>,
                        generate: (string, nat) -> Outcome<string>, question: string)
    returns (answer: Outcome<string>)
    requires forall i | 0 <= i < |nearest(question, TopK)| :: nearest(question, TopK)[i] < |store.metadata|
    ensures answer == Answer(store.metadata, nearest(question, TopK), generate, question)
  {
    var retrieved := store.Search(nearest(question, TopK));
    var context := BuildContext(retrieved);
    if context.Raised? {
      return Raised(context.error);
    }
    var prompt := RenderPrompt(context.value, question);
    answer := generate(prompt, MaxNewTokens);
  }
}
