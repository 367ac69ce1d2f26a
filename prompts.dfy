/** The instruction template `LEGAL_PROMPT` that every question is
    rendered into, and the facts about it that make rendering safe: one
    `{context}` placeholder, then one `{question}` placeholder, no other
    brace, and the refusal sentence word for word. */
module Prompts {
  import opened Python

  /** Text that `str.format` copies through unchanged. */
  type PlainText = s: string | BraceFree(s)

  lemma BraceFreeAppend(a: string, b: string)
    requires BraceFree(a) && BraceFree(b)
    ensures BraceFree(a + b)
  {
    assert forall k | |a| <= k < |a + b| :: (a + b)[k] == b[k - |a|];
  }

  /** The pieces of one template line, written end to end. */
  function Concat(parts: seq<PlainText>): PlainText {
    if parts == [] then ""
    else
      BraceFreeAppend(parts[0], Concat(parts[1..]));
      parts[0] + Concat(parts[1..])
  }

  /** Template lines, each followed by a line break. */
  function Lines(lines: seq<PlainText>): PlainText {
    if lines == [] then ""
    else
      BraceFreeAppend(lines[0], "\n");
      BraceFreeAppend(lines[0] + "\n", Lines(lines[1..]));
      lines[0] + "\n" + Lines(lines[1..])
  }

  // ---------------------------------------------------------------------
  // The lines of the template, in the order they appear

  const Banner: PlainText := "======================"

  const Intro1: PlainText := Concat(["You are an AI LEGAL", " ASSISTANT whose", " sole authority is", " the"])
  const Intro2: PlainText := Concat(["National Penal Code", " of Nepal, 2017."])
  const Intro3: PlainText :=
    Concat(["This system operates", " under a", " Retrieval-Augmented", " Generation (RAG)", " framework."])
  const Intro4: PlainText := Concat(["The provided Law", " Text is the ONLY", " source of truth."])

  const RulesTitle: PlainText := "ABSOLUTE LEGAL RULES"
  const Rule1: PlainText :=
    Concat(["1. You MUST answer", " strictly and", " exclusively from", " the provided Law", " Text."])
  const Rule2: PlainText :=
    Concat(["2. You MUST NOT rely", " on prior knowledge,", " general law", " principles, or",
            " assumptions."])
  const Rule3: PlainText :=
    Concat(["3. You MUST NOT add,", " infer, simplify,", " reinterpret, or", " generalize the law."])
  const Rule4: PlainText :=
    Concat(["4. If the Law Text", " does NOT explicitly", " contain the answer,",
            " you MUST respond", " with a refusal."])
  const Rule5: PlainText := Concat(["5. Partial answers", " are NOT allowed."])
  const Rule6: PlainText :=
    Concat(["6. Every legal", " statement MUST be", " directly supported", " by the Law Text."])
  const Rule7: PlainText :=
    Concat(["7. You MUST preserve", " all legal", " conditions,", " exceptions, and", " provisos."])
  const Rule8: PlainText := Concat(["8. You MUST maintain", " a formal, neutral,", " legal tone."])
  const Rule9: PlainText :=
    Concat(["9. You MUST cite the", " exact Chapter,", " Section, and", " Subsection if", " available."])
  const Rule10: PlainText := Concat(["10. Hallucination of", " law is STRICTLY", " PROHIBITED."])

  const RefusalTitle: PlainText := Concat(["REFUSAL POLICY", " (MANDATORY)"])
  const RefusalInstruction: PlainText :=
    Concat(["If the answer is not", " explicitly present,", " respond ONLY with:"])

  /** The sentence the model must answer with when the retrieved law text
      does not contain the answer: "The provided sections of the National
      Penal Code, 2017 do not mention this." */
  const RefusalSentence: PlainText :=
    Concat(["The provided", " sections of the", " National Penal", " Code, 2017 do not", " mention this."])

  const LawTextTitle: PlainText := Concat(["AUTHORITATIVE LAW", " TEXT"])
  const QuestionTitle: PlainText := "USER QUESTION"

  const ResponseTitle: PlainText := Concat(["RESPONSE FORMAT", " (STRICT)"])
  const AnswerLabel: PlainText := "Answer:"
  const AnswerSlot: PlainText := Concat(["<Precise legal", " answer>"])
  const SourceLabel: PlainText := "Source:"
  const SourceSlot: PlainText :=
    Concat(["<Exact Chapter /", " Section /", " Subsection OR \"Not", " specified in", " provided text\">"])

  // ---------------------------------------------------------------------
  // The template

  const ContextPlaceholder: string := "{context}"
  const QuestionPlaceholder: string := "{question}"

  /** A template with fixed text `head`, the `{context}` placeholder, fixed
      text `middle`, the `{question}` placeholder and fixed text `tail`. */
  function Template(head: PlainText, middle: PlainText, tail: PlainText): string {
    head + ContextPlaceholder + middle + QuestionPlaceholder + tail
  }

  /** A sentence on a line of its own, between quotation marks. */
  function Quoted(sentence: PlainText): PlainText {
    Concat(["\"", sentence, "\""])
  }

  /** A template head: the line break that follows the opening triple
      quote, the lines before the quoted refusal sentence, that sentence,
      and the lines after it. */
  function Head(before: seq<PlainText>, refusal: PlainText, after: seq<PlainText>): PlainText {
    Concat(["\n", Lines(before), Lines([Quoted(refusal)] + after)])
  }

  /** The lines before the refusal sentence. */
  const HeadBeforeRefusal: seq<PlainText> :=
    [Intro1, Intro2, Intro3, Intro4,
     Banner, RulesTitle, Banner,
     Rule1, Rule2, Rule3, Rule4, Rule5, Rule6, Rule7, Rule8, Rule9, Rule10,
     Banner, RefusalTitle, Banner,
     RefusalInstruction]

  /** The lines after the refusal sentence, up to the `{context}` line. */
  const HeadAfterRefusal: seq<PlainText> := [Banner, LawTextTitle, Banner]

  /** The template up to the `{context}` placeholder. */
  const PromptHead: PlainText := Head(HeadBeforeRefusal, RefusalSentence, HeadAfterRefusal)

  /** The template between the two placeholders. */
  const PromptMiddle: PlainText := Concat(["\n", Lines([Banner, QuestionTitle, Banner])])

  /** The template after the `{question}` placeholder. */
  const PromptTail: PlainText :=
    Concat(["\n", Lines([Banner, ResponseTitle, Banner, AnswerLabel, AnswerSlot, SourceLabel, SourceSlot])])

  /** `LEGAL_PROMPT`, character for character. */
  const LegalPrompt: string := Template(PromptHead, PromptMiddle, PromptTail)

  /** Where each placeholder starts in `LegalPrompt`. */
  const ContextAt: nat := |PromptHead|
  const QuestionAt: nat := |PromptHead| + |ContextPlaceholder| + |PromptMiddle|

  /** Where the line holding the quoted refusal sentence starts in
      `LegalPrompt`. */
  const RefusalAt: nat := 1 + |Lines(HeadBeforeRefusal)|

  /** The keyword arguments of `LEGAL_PROMPT.format(context=..., question=...)`. */
  function PromptArgs(context: string, question: string): map<string, string> {
    map["context" := context, "question" := question]
  }

  /** `pattern` occurs in `s` starting at index `i`. */
  predicate OccursAt(s: string, pattern: string, i: nat) {
    i + |pattern| <= |s| && s[i..i + |pattern|] == pattern
  }

  // ---------------------------------------------------------------------
  // Facts about any template of this shape

  /** The only braces of a template are the four that delimit its two
      placeholders. */
  lemma TemplateBraces(head: PlainText, middle: PlainText, tail: PlainText, k: nat)
    requires k < |Template(head, middle, tail)|
    ensures var t := Template(head, middle, tail);
      var q := |head| + |ContextPlaceholder| + |middle|;
      && (IsBrace(t[k]) <==> k == |head| || k == |head| + 8 || k == q || k == q + 9)
      && (t[k] == '{' <==> k == |head| || k == q)
  {
    var t := Template(head, middle, tail);
    var a := |head|;
    var b := a + |ContextPlaceholder|;
    var c := b + |middle|;
    var d := c + |QuestionPlaceholder|;
    if k < a {
      assert t[k] == head[k];
    } else if k < b {
      assert t[k] == ContextPlaceholder[k - a];
    } else if k < c {
      assert t[k] == middle[k - b];
    } else if k < d {
      assert t[k] == QuestionPlaceholder[k - c];
    } else {
      assert t[k] == tail[k - d];
    }
  }

  /** `{context}` occurs in a template exactly once, right after the head. */
  lemma TemplateContextOnce(head: PlainText, middle: PlainText, tail: PlainText, i: nat)
    ensures OccursAt(Template(head, middle, tail), ContextPlaceholder, i) <==> i == |head|
  {
    var t := Template(head, middle, tail);
    assert t[|head|..|head| + |ContextPlaceholder|] == ContextPlaceholder;
    if OccursAt(t, ContextPlaceholder, i) {
      assert t[i] == '{' && t[i + 8] == '}';
      TemplateBraces(head, middle, tail, i);
      TemplateBraces(head, middle, tail, i + 8);
    }
  }

  /** `{question}` occurs in a template exactly once, right after the
      middle part. */
  lemma TemplateQuestionOnce(head: PlainText, middle: PlainText, tail: PlainText, i: nat)
    ensures OccursAt(Template(head, middle, tail), QuestionPlaceholder, i)
        <==> i == |head| + |ContextPlaceholder| + |middle|
  {
    var t := Template(head, middle, tail);
    var q := |head| + |ContextPlaceholder| + |middle|;
    assert t[q..q + |QuestionPlaceholder|] == QuestionPlaceholder;
    if OccursAt(t, QuestionPlaceholder, i) {
      assert t[i] == '{' && t[i + 9] == '}';
      TemplateBraces(head, middle, tail, i);
      TemplateBraces(head, middle, tail, i + 9);
    }
  }

  lemma Concat3(a: PlainText, b: PlainText, c: PlainText)
    ensures Concat([a, b, c]) == a + b + c
  {
    var parts: seq<PlainText> := [a, b, c];
    assert parts[1..] == [b, c] && parts[1..][1..] == [c] && parts[1..][1..][1..] == [];
    assert Concat([c]) == c + "";
  }

  /** The head taken apart around the quoted refusal line. */
  lemma HeadAroundRefusal(before: seq<PlainText>, refusal: PlainText, after: seq<PlainText>)
    ensures Head(before, refusal, after) == ("\n" + Lines(before)) + ("\"" + refusal + "\"\n") + Lines(after)
  {
    var quoted := Quoted(refusal);
    Concat3("\"", refusal, "\"");
    assert ([quoted] + after)[1..] == after;
    var rest := Lines([quoted] + after);
    assert rest == quoted + "\n" + Lines(after);
    Concat3("\n", Lines(before), rest);
  }

  lemma OccursAtJoint(pre: string, s: string, post: string)
    ensures OccursAt(pre + s + post, s, |pre|)
  {
    assert (pre + s + post)[|pre|..|pre| + |s|] == s;
  }

  /** The quoted refusal line sits in the head right after the line break
      and the lines before it. */
  lemma RefusalInHead(before: seq<PlainText>, refusal: PlainText, after: seq<PlainText>,
                      middle: PlainText, tail: PlainText)
    ensures OccursAt(Template(Head(before, refusal, after), middle, tail),
                     "\"" + refusal + "\"\n", 1 + |Lines(before)|)
  {
    HeadAroundRefusal(before, refusal, after);
    var pre := "\n" + Lines(before);
    var line := "\"" + refusal + "\"\n";
    var post := Lines(after) + ContextPlaceholder + middle + QuestionPlaceholder + tail;
    assert Template(Head(before, refusal, after), middle, tail) == pre + line + post;
    OccursAtJoint(pre, line, post);
  }

  /** Both placeholder names are plain keyword names. */
  lemma PlaceholderNames()
    ensures PlainName("context") && ContextPlaceholder == "{" + "context" + "}"
    ensures PlainName("question") && QuestionPlaceholder == "{" + "question" + "}"
  {
  }

  /** A placeholder for a supplied argument followed by brace-free text. */
  lemma FormatFieldThenText(name: string, text: PlainText, rest: string, args: map<string, string>)
    requires PlainName(name) && name in args
    ensures Format("{" + name + "}" + (text + rest), args) == Prefixed(args[name] + text, Format(rest, args))
  {
    FormatPlaceholder(name, text + rest, args);
    FormatLiteral(text, rest, args);
    match Format(rest, args)
    case Returned(v) =>
      assert args[name] + (text + v) == args[name] + text + v;
    case Raised(_) =>
  }

  /** The part of a template from the `{context}` placeholder on. */
  lemma FormatFromContext(middle: PlainText, tail: PlainText, args: map<string, string>)
    requires "context" in args && "question" in args
    ensures Format(ContextPlaceholder + middle + QuestionPlaceholder + tail, args)
         == Returned(args["context"] + middle + args["question"] + tail)
  {
    PlaceholderNames();
    var fromQuestion := QuestionPlaceholder + tail;
    FormatFieldThenText("question", tail, [], args);
    assert tail + [] == tail;
    assert fromQuestion == "{" + "question" + "}" + (tail + []);
    assert Format([], args) == Returned([]);
    assert args["question"] + tail + [] == args["question"] + tail;
    FormatFieldThenText("context", middle, fromQuestion, args);
    assert ContextPlaceholder + middle + QuestionPlaceholder + tail == "{" + "context" + "}" + (middle + fromQuestion);
    assert args["context"] + middle + (args["question"] + tail) == args["context"] + middle + args["question"] + tail;
  }

  /** Filling a template: the placeholders are replaced by the two
      arguments and the fixed text is copied unchanged. */
  lemma FormatTemplate(head: PlainText, middle: PlainText, tail: PlainText, context: string, question: string)
    ensures Format(Template(head, middle, tail), PromptArgs(context, question))
         == Returned(head + context + middle + question + tail)
  {
    var args := PromptArgs(context, question);
    var fromContext := ContextPlaceholder + middle + QuestionPlaceholder + tail;
    assert Template(head, middle, tail) == head + fromContext;
    FormatFromContext(middle, tail, args);
    FormatLiteral(head, fromContext, args);
    assert head + (context + middle + question + tail) == head + context + middle + question + tail;
  }

  // ---------------------------------------------------------------------
  // Facts about `LEGAL_PROMPT`

  /** The only braces of `LEGAL_PROMPT` are the four that delimit the two
      placeholders. */
  lemma BracePositions(k: nat)
    requires k < |LegalPrompt|
    ensures IsBrace(LegalPrompt[k]) <==>
      k == ContextAt || k == ContextAt + 8 || k == QuestionAt || k == QuestionAt + 9
    ensures LegalPrompt[k] == '{' <==> k == ContextAt || k == QuestionAt
  {
    TemplateBraces(PromptHead, PromptMiddle, PromptTail, k);
  }

  /** `{context}` occurs exactly once in the template, at `ContextAt`. */
  lemma ContextPlaceholderOnce(i: nat)
    ensures OccursAt(LegalPrompt, ContextPlaceholder, i) <==> i == ContextAt
  {
    TemplateContextOnce(PromptHead, PromptMiddle, PromptTail, i);
  }

  /** `{question}` occurs exactly once in the template, at `QuestionAt`,
      after the `{context}` placeholder. */
  lemma QuestionPlaceholderOnce(i: nat)
    ensures OccursAt(LegalPrompt, QuestionPlaceholder, i) <==> i == QuestionAt
    ensures ContextAt + |ContextPlaceholder| <= QuestionAt
  {
    TemplateQuestionOnce(PromptHead, PromptMiddle, PromptTail, i);
  }

  /** The refusal sentence appears in the template word for word, on a
      line of its own between quotation marks. */
  lemma RefusalVerbatim()
    ensures OccursAt(LegalPrompt, "\"" + RefusalSentence + "\"\n", RefusalAt)
  {
    RefusalInHead(HeadBeforeRefusal, RefusalSentence, HeadAfterRefusal, PromptMiddle, PromptTail);
  }

  /** Rendering the template fills the two placeholders with the law text
      and the question and leaves every other character as written. */
  lemma FormatLegalPrompt(context: string, question: string)
    ensures Format(LegalPrompt, PromptArgs(context, question))
         == Returned(PromptHead + context + PromptMiddle + question + PromptTail)
  {
    FormatTemplate(PromptHead, PromptMiddle, PromptTail, context, question);
  }

  /** Law text and a question without braces give a rendered prompt
      without braces: no placeholder text is left behind. */
  lemma RenderedBraceFree(context: string, question: string)
    requires BraceFree(context) && BraceFree(question)
    ensures BraceFree(PromptHead + context + PromptMiddle + question + PromptTail)
  {
    BraceFreeAppend(PromptHead, context);
    BraceFreeAppend(PromptHead + context, PromptMiddle);
    BraceFreeAppend(PromptHead + context + PromptMiddle, question);
    BraceFreeAppend(PromptHead + context + PromptMiddle + question, PromptTail);
  }

  /** `LEGAL_PROMPT.format(context=context, question=question)`, which
      always succeeds. */
  function RenderPrompt(context: string, question: string): string {
    PromptHead + context + PromptMiddle + question + PromptTail
  }

  /** With an empty context the law-text section of the prompt is empty:
      the question section follows the head directly. */
  lemma RenderWithoutContext(question: string)
    ensures RenderPrompt("", question) == PromptHead + PromptMiddle + question + PromptTail
  {
    DropEmptyContext(PromptHead, PromptMiddle, question, PromptTail);
  }

  /** Dropping an empty piece, stated over any strings so that the
      template's own text is not unfolded to prove it. */
  lemma DropEmptyContext(head: string, middle: string, question: string, tail: string)
    ensures head + "" + middle + question + tail == head + middle + question + tail
  {
    assert head + "" == head;
  }

  /** `LEGAL_PROMPT.format(context=..., question=...)` succeeds and gives
      the rendered prompt. */
  lemma RenderPromptFormats(context: string, question: string)
    ensures Format(LegalPrompt, PromptArgs(context, question)) == Returned(RenderPrompt(context, question))
  {
    FormatLegalPrompt(context, question);
  }
}
