/**
 * The chat API route: a POST handler that validates the request, picks a
 * prompt template for the answer mode, records the exchange in a process-wide
 * conversation history, asks a chat model to reformulate the question, runs a
 * similarity search, fills the template with the retrieved passages and asks
 * a chat model for the answer.
 *
 * The hosted services (vector index, embeddings, chat completions) are
 * function-valued parameters: the model sees only what is sent to them and
 * what they hand back, or that they threw.
 */
module ChatRoute {
  import opened Values
  import opened Text

  // ---------------------------------------------------------------- data

  datatype Role = User | Assistant | System

  /** One `{ role, content }` entry of a chat message list. */
  datatype Turn = Turn(role: Role, content: string)

  /** The three deployment credentials read from the process environment. */
  datatype Env = Env(pineconeApiKey: Option<string>, pineconeIndexName: Option<string>, openAiApiKey: Option<string>)

  /** The JSON body of a request; `question` may be missing or null. */
  datatype Request = Request(
    question: Option<string>,
    mode: string,
    author: seq<string>,
    contextCount: int,
    model: seq<string>)

  /** A document handed back by the retriever; its metadata, and each key of it, may be missing. */
  datatype Doc = Doc(metadata: Option<map<string, string>>)

  /** One entry of the response's `docs` list. */
  datatype DocInfo = DocInfo(author: string, fileName: string, content: string)

  /** What the handler answers: a JSON error with a status, the framework's generic
      error for an exception nobody caught, or the answer with its sources. */
  datatype Response =
    | Rejected(status: int, error: string)
    | Crashed
    | Answered(answer: string, docs: seq<DocInfo>, question: string)

  /** A call into a hosted service. */
  datatype Call =
    | Chat(modelName: string, temperature: real, messages: seq<Turn>)
    | Search(query: string, k: int, authors: seq<string>)

  /**
   * The hosted services. `storeOpens` says whether connecting to the existing
   * vector index succeeded; `search` receives the ordinal of the retrieval
   * (1 for the context, 2 for the response's document list), since the two
   * identical retrievals need not return the same documents.
   */
  datatype Services = Services(
    storeOpens: bool,
    chat: Call -> Reply<Option<string>>,
    search: (nat, Call) -> Reply<seq<Doc>>)

  // ----------------------------------------------------------- constants

  const MissingQuestion: string := "質問がありません"
  const MissingConfiguration: string := "環境変数が不足しています"
  const NoAnswer: string := "回答を生成できませんでした。"
  const DefaultModel: string := "gpt-4.1"
  const ReformulationModel: string := "gpt-4.1"
  const Temperature: real := 0.2

  /** Preamble of the "research" template: interpretation for specialists. */
  const ResearchPreamble: string :=
    "You are a globally trusted chat system specializing in Western classical studies, focusing on ancient Greek and Latin texts.\n      In this specialist interpretation mode, you should provide in-depth textual analysis and scholarly commentary based solely on the RAG-retrieved context.\n                [Rules]\n                1. Base your answer strictly on the provided context. If the context does not contain the needed information, state so clearly.\n                2. Where relevant, include quotations from the original text (Greek or Latin), providing your translation into the user\U{2019}s language in parallel.\n                3. Provide as detailed references as possible\U{2014}including precise text sections (e.g., \"\"Plato, Apology 25a2-c4\"\") and, where available, paragraph numbers, line numbers, or page numbers\U{2014}so that the user can easily verify your claims and locate the exact sources.\n                4. Engage with interpretive angles or nuances **only as supported by the retrieved context**:\n                - If philological or historical details are hinted at in the context, expand on them.\n                - If variations in manuscripts or textual traditions are mentioned, analyze them.\n                5. Write in the user\U{2019}s language, freely using academic terminology if it aids precision.\n                6. Provide a structured, thorough commentary that aims to:\n                - Highlight subtle or less obvious connections within the provided context (e.g., cross-references or thematic links).\n                - Offer deeper interpretive insights that might not be immediately apparent, but remain faithful to the context.\n                - Propose potential lines of inquiry or further textual references for future research, **if** the context suggests them.\n                7. If certain scholarly debates or interpretive points appear even tangentially in the provided context, address them with appropriate detail.\n                8. Aim for a sufficiently detailed analysis to serve expert-level readers."

  /** Preamble of the "study" template: explanation for non-specialists. */
  const StudyPreamble: string :=
    "You are a globally trusted chat system specializing in Western classical studies, focusing on ancient Greek and Latin texts.\n                Your goal is to provide thorough, accessible explanations that help non-specialists understand the topic deeply. You should use the provided context retrieved by RAG, presenting related background information and relevant textual evidence.\n\n                [Rules]\n                1. Base your answer strictly on the provided context. If the context does not contain the needed information, state so clearly.\n                2. Offer explanatory background for non-specialists (e.g., historical context, definitions of key terms, etc.).\n                3. Aim for a sufficiently detailed explanation. Expand on points that support deeper learning.\n                4. Cite important parts of the contextual information directly (in translation) where it significantly aids understanding.\n                5. Provide as detailed references as possible\U{2014}including precise text sections (e.g., \"\"Plato, Apology 25a2-c4\"\") and, where available, paragraph numbers, line numbers, or page numbers\U{2014}so that the user can easily verify your claims and locate the exact sources.\n                6. Structure your response to cover multiple relevant points if the retrieved context spans various sources or angles.\n                7. Write in the same language as the user\U{2019}s input, ensuring accessibility.\n                8. Aim for a sufficiently detailed explanation. Expand on points that support deeper learning."

  /** Preamble of the "qa" template: concise answers with references. */
  const QaPreamble: string :=
    "You are a globally trusted chat system specializing in Western classical studies, focusing on ancient Greek and Latin texts.\n                Your primary goal in Q&A mode is to provide concise answers to the user\U{2019}s questions, along with clear references to the source material from the context retrieved by RAG. \n\n                [Rules]\n                1. Base your answer strictly on the provided context. If the context does not contain the needed information, state so clearly.\n                2. Provide a direct, succinct answer to the user\U{2019}s query based on the provided context. \n                3. Provide as detailed references as possible\U{2014}including precise text sections (e.g., \"\"Plato, Apology 25a2-c4\"\") and, where available, paragraph numbers, line numbers, or page numbers\U{2014}so that the user can easily verify your claims and locate the exact sources.\n                4. Keep the answer concise, but do not omit essential clarifications.\n                5. Highlight subtle or less obvious connections within the provided context (e.g., cross-references or thematic links).\n                6. Generate your response in the same language as the user\U{2019}s input."

  /** Persona preamble, before the interpolated author list. */
  const PersonaHead: string :=
    "From now on, you will fully embody the role of a "

  /** Persona preamble, after the interpolated author list. */
  const PersonaTail: string :=
    " or the role of a character in their works. Your goal is to accurately simulate their behavior, language, and wisdom in all your responses.\nInstructions:\n1. Adopt the Style of the Author or Charater: Use the specific language, tone, and style of the chosen author or character, reflecting the provided ancient Greek or Latin texts.\n 2. Show Deep Knowledge: Demonstrate a profound understanding of the author's works and characters, delivering accurate, insightful, and high-quality responses.\n3. Accurate Simulation: Speak and write exactly as the selected author or character would, using their tone (scholarly, poetic, or conversational) based on the user's context.\n4. Contextual Responses: Use the provided ancient texts to ensure authenticity, but do not directly quote or refer to these texts explicitly.\n5. Versatile Interaction: Engage in Q&A, mentorship, or advisory roles, providing trustworthy counsel reflecting the wisdom of ancient texts without directly quoting them.\n6. Adaptive Tone: Modify your tone to fit the context and user preferences. When responding in Japanese, use the \U{300C}\U{3060}\U{3001}\U{3067}\U{3042}\U{308B}\U{300D} tone to maintain a formal and authoritative style. (\U{65E5}\U{672C}\U{8A9E}\U{3067}\U{5FDC}\U{7B54}\U{3059}\U{308B}\U{969B}\U{306F}\U{3001}\U{5FC5}\U{305A}\U{300C}\U{3060}\U{3001}\U{3067}\U{3042}\U{308B}\U{300D}\U{8ABF}\U{3092}\U{4F7F}\U{3046}\U{3053}\U{3068}\U{3002})\n6. Full Immersion: Do not refer to yourself in the third person. Respond as the author would, avoiding phrases like 'Plato says' or 'According to Homer'.\n7. Stay True: Always stay true to the voice and style of the authoer or character, and provide contextual background where necessary.\nExample:\nIf simulating Socrates, use Socratic questioning and philosophical insights without directly quoting texts.\nIf simulating Homer, use poetic and epic narrative styles without explicit references.\nKey Feature:\nText-Based Authenticity: Your responses must reflect the content and tone of the provided ancient texts, ensuring your simulation is rooted in authentic source material."

  /** The system instruction of the reformulation request. */
  const ReformulationInstruction: string :=
    "Please reformulate the user's last message in English. Ensure the output is formatted similarly to the user's last message (e.g., if the user's last message is a question or directive, the output should also be a question or directive). If there is prior conversation history, use it to clarify ambiguous references (like 'it' or 'that') and to incorporate relevant details into the reformulation, while keeping the focus on the user's last message. If there is no prior message history, limit the reformulation to the content of the last message. The output must consist only of the reformulated query or directive, without any additional text or explanation. Ensure the entire output is in English."
  const ContextLabel: string := "\n      Context:"
  const QuestionLabel: string := "\n      Question: "
  const AnswerLabel: string := "\n      Answer:"

  /** What every template text ends with after its preamble: the labelled placeholders. */
  const PlaceholderCue: string := ContextLabel + "{context}" + QuestionLabel + "{question}" + AnswerLabel

  // ---------------------------------------------------------- validation

  /** All three credentials are set and non-empty. */
  predicate Configured(env: Env)
  {
    Truthy(env.pineconeApiKey) && Truthy(env.pineconeIndexName) && Truthy(env.openAiApiKey)
  }

  /** The checks at the top of the handler, question first: the error response, if any. */
  function Validate(env: Env, req: Request): (r: Option<Response>)
    ensures r == None <==> Truthy(req.question) && Configured(env)
    ensures !Truthy(req.question) ==> r == Some(Rejected(400, MissingQuestion))
    ensures Truthy(req.question) && !Configured(env) ==> r == Some(Rejected(500, MissingConfiguration))
  {
    if !Truthy(req.question) then Some(Rejected(400, MissingQuestion))
    else if !Configured(env) then Some(Rejected(500, MissingConfiguration))
    else None
  }

  // ----------------------------------------------------------- templates

  /** The prompt texts of the route: the three fixed preambles, the two halves of the persona
      preamble around the interpolated author list, and the reformulation instruction. */
  datatype Prompts = Prompts(
    research: string,
    study: string,
    qa: string,
    personaHead: string,
    personaTail: string,
    reformulation: string)

  /** The texts as the route writes them. */
  const RoutePrompts: Prompts :=
    Prompts(ResearchPreamble, StudyPreamble, QaPreamble, PersonaHead, PersonaTail, ReformulationInstruction)

  /** A prompt template: literal text and named slots. */
  datatype Piece = Lit(text: string) | Slot(name: string)

  /** The template text handed to the template engine, each slot written `{name}`. */
  function Source(t: seq<Piece>): string
  {
    if |t| == 0 then ""
    else
      (match t[0] case Lit(s) => s case Slot(n) => "{" + n + "}") + Source(t[1..])
  }

  /** Every slot of the template has a value. */
  predicate Bound(t: seq<Piece>, values: map<string, string>)
  {
    forall i :: 0 <= i < |t| && t[i].Slot? ==> t[i].name in values
  }

  /** The filled template: each slot replaced by its value. */
  function Format(t: seq<Piece>, values: map<string, string>): string
    requires Bound(t, values)
  {
    if |t| == 0 then ""
    else
      (match t[0] case Lit(s) => s case Slot(n) => values[n]) + Format(t[1..], values)
  }

  /** Filling every slot with its own placeholder gives back the template text. */
  lemma {:induction false} FormatWithPlaceholders(t: seq<Piece>, values: map<string, string>)
    requires Bound(t, values)
    requires forall n :: n in values ==> values[n] == "{" + n + "}"
    ensures Format(t, values) == Source(t)
  {
    if |t| > 0 {
      FormatWithPlaceholders(t[1..], values);
    }
  }

  /** The shape shared by every template: a preamble, then the context, the question and the answer cue. */
  function Framed(preamble: string): seq<Piece>
  {
    [Lit(preamble + ContextLabel), Slot("context"), Lit(QuestionLabel), Slot("question"), Lit(AnswerLabel)]
  }

  /** The text of a framed template, with its two placeholders. */
  lemma FramedSource(preamble: string)
    ensures Source(Framed(preamble)) == preamble + PlaceholderCue
  {
    var t := Framed(preamble);
    assert Source(t[5..]) == "";
    assert Source(t[4..]) == AnswerLabel by { assert t[4..][1..] == t[5..]; }
    assert Source(t[3..]) == "{question}" + AnswerLabel by { assert t[3..][1..] == t[4..]; }
    assert Source(t[2..]) == QuestionLabel + "{question}" + AnswerLabel by { assert t[2..][1..] == t[3..]; }
    assert Source(t[1..]) == "{context}" + QuestionLabel + "{question}" + AnswerLabel by { assert t[1..][1..] == t[2..]; }
    assert ContextLabel + Source(t[1..]) == PlaceholderCue;
  }

  /** A framed template filled with a context and a question. */
  lemma FramedFormat(preamble: string, context: string, question: string)
    ensures Bound(Framed(preamble), map["context" := context, "question" := question])
    ensures Format(Framed(preamble), map["context" := context, "question" := question])
      == preamble + ContextLabel + context + QuestionLabel + question + AnswerLabel
  {
    var t, v := Framed(preamble), map["context" := context, "question" := question];
    assert Format(t[5..], v) == "";
    assert Format(t[4..], v) == AnswerLabel by { assert t[4..][1..] == t[5..]; }
    assert Format(t[3..], v) == question + AnswerLabel by { assert t[3..][1..] == t[4..]; }
    assert Format(t[2..], v) == QuestionLabel + question + AnswerLabel by { assert t[2..][1..] == t[3..]; }
    assert Format(t[1..], v) == context + QuestionLabel + question + AnswerLabel by { assert t[1..][1..] == t[2..]; }
  }

  /** The preamble for an answer mode; any mode but the three named ones gets the persona
      preamble, with the author list interpolated as JavaScript renders an array (comma-joined). */
  function Preamble(p: Prompts, mode: string, author: seq<string>): (r: string)
    ensures mode == "research" ==> r == p.research
    ensures mode == "study" ==> r == p.study
    ensures mode == "qa" ==> r == p.qa
  {
    if mode == "research" then p.research
    else if mode == "study" then p.study
    else if mode == "qa" then p.qa
    else p.personaHead + Join(author, ",") + p.personaTail
  }

  /** The prompt template for a mode. Every template holds both placeholders. */
  function TemplateFor(p: Prompts, mode: string, author: seq<string>): (t: seq<Piece>)
    ensures Contains(Source(t), "{context}")
    ensures Contains(Source(t), "{question}")
  {
    var pre := Preamble(p, mode, author);
    FramedSource(pre);
    var s := pre + PlaceholderCue;
    assert s == (pre + ContextLabel) + "{context}" + (QuestionLabel + "{question}" + AnswerLabel);
    assert s == (pre + ContextLabel + "{context}" + QuestionLabel) + "{question}" + AnswerLabel;
    ContainsMiddle(pre + ContextLabel, "{context}", QuestionLabel + "{question}" + AnswerLabel);
    ContainsMiddle(pre + ContextLabel + "{context}" + QuestionLabel, "{question}", AnswerLabel);
    Framed(pre)
  }

  lemma ContainsMiddle(a: string, b: string, c: string)
    ensures Contains(a + b + c, b)
  {
    assert (a + b + c)[|a|..|a| + |b|] == b;
    assert OccursAt(a + b + c, b, |a|);
  }

  /** "research", "study" and "qa" select three different fixed templates of the route. */
  lemma RouteTemplatesDistinct(author1: seq<string>, author2: seq<string>, author3: seq<string>)
    ensures Source(TemplateFor(RoutePrompts, "research", author1)) != Source(TemplateFor(RoutePrompts, "study", author2))
    ensures Source(TemplateFor(RoutePrompts, "study", author2)) != Source(TemplateFor(RoutePrompts, "qa", author3))
    ensures Source(TemplateFor(RoutePrompts, "research", author1)) != Source(TemplateFor(RoutePrompts, "qa", author3))
  {
    FramedSource(ResearchPreamble);
    FramedSource(StudyPreamble);
    FramedSource(QaPreamble);
    assert |ResearchPreamble| == 2030 && |StudyPreamble| == 1541 && |QaPreamble| == 1169;
  }

  /** The fixed templates do not depend on the author list. */
  lemma FixedTemplatesIgnoreAuthor(p: Prompts, mode: string, author1: seq<string>, author2: seq<string>)
    requires mode == "research" || mode == "study" || mode == "qa"
    ensures TemplateFor(p, mode, author1) == TemplateFor(p, mode, author2)
  {
  }

  /** `h + x + t + u` determines `x`. */
  lemma MiddleDetermined(h: string, x: string, y: string, t: string, u: string)
    requires h + x + t + u == h + y + t + u
    ensures x == y
  {
    assert |x| == |y|;
    assert (h + x + t + u)[|h|..|h| + |x|] == x;
    assert (h + y + t + u)[|h|..|h| + |y|] == y;
  }

  /** Every other mode selects the persona template, which starts with the persona head and
      differs whenever the rendered author lists differ. */
  lemma PersonaTemplateNamesAuthor(p: Prompts, mode: string, author1: seq<string>, author2: seq<string>)
    requires mode != "research" && mode != "study" && mode != "qa"
    ensures Source(TemplateFor(p, mode, author1))[..|p.personaHead|] == p.personaHead
    ensures Join(author1, ",") != Join(author2, ",") ==>
      Source(TemplateFor(p, mode, author1)) != Source(TemplateFor(p, mode, author2))
  {
    var h, t := p.personaHead, p.personaTail;
    var j1, j2 := Join(author1, ","), Join(author2, ",");
    FramedSource(h + j1 + t);
    FramedSource(h + j2 + t);
    var s1, s2 := h + j1 + t + PlaceholderCue, h + j2 + t + PlaceholderCue;
    assert s1[..|h|] == h;
    if s1 == s2 {
      MiddleDetermined(h, j1, j2, t, PlaceholderCue);
    }
  }

  // ---------------------------------------------------- pipeline pieces

  /** The message list sent for reformulation: the whole history (which already ends with
      the current question), the fixed system instruction, and the question once more. */
  function ReformulationMessages(p: Prompts, history: seq<Turn>, question: string): (r: seq<Turn>)
    ensures |r| == |history| + 2
    ensures r[..|history|] == history
    ensures r[|history|] == Turn(System, p.reformulation)
    ensures r[|history| + 1] == Turn(User, question)
  {
    history + [Turn(System, p.reformulation), Turn(User, question)]
  }

  /** `reformulated.content ?? question`: the reformulated text unless it is null or undefined;
      an empty reformulation is kept. */
  function SearchQuery(reformulated: Option<string>, question: string): (r: string)
    ensures reformulated.Some? ==> r == reformulated.value
    ensures reformulated.None? ==> r == question
  {
    reformulated.OrElse(question)
  }

  /** `doc.metadata?.[key]`: missing when the metadata or the key is. */
  function Meta(d: Doc, key: string): (r: Option<string>)
    ensures r.Some? <==> d.metadata.Some? && key in d.metadata.value
    ensures r.Some? ==> r.value == d.metadata.value[key]
  {
    match d.metadata
    case None => None
    case Some(m) => if key in m then Some(m[key]) else None
  }

  /** The passage of each retrieved document, `doc.metadata?.original_text ?? ""`. */
  function Passages(docs: seq<Doc>): (r: seq<string>)
    ensures |r| == |docs|
    ensures forall i :: 0 <= i < |docs| ==> r[i] == Meta(docs[i], "original_text").OrElse("")
  {
    seq(|docs|, i requires 0 <= i < |docs| => Meta(docs[i], "original_text").OrElse(""))
  }

  /** The context block: the retrieved passages in rank order, joined by newlines. */
  function Context(docs: seq<Doc>): (r: string)
    ensures |docs| == 0 ==> r == ""
    ensures |docs| == 1 ==> r == Meta(docs[0], "original_text").OrElse("")
    ensures |docs| > 1 ==> r == Context(docs[..|docs| - 1]) + "\n" + Meta(docs[|docs| - 1], "original_text").OrElse("")
  {
    assert |docs| > 1 ==>
      Join(Passages(docs), "\n") == Join(Passages(docs[..|docs| - 1]), "\n") + "\n" + Passages(docs)[|docs| - 1] by {
      if |docs| > 1 {
        var init := docs[..|docs| - 1];
        assert Passages(docs) == Passages(init) + [Passages(docs)[|docs| - 1]];
        JoinAppend(Passages(init), Passages(docs)[|docs| - 1], "\n");
      }
    }
    Join(Passages(docs), "\n")
  }

  /** The context block splits back into the retrieved passages, in rank order, when none of them holds a newline. */
  lemma ContextSplitsIntoPassages(docs: seq<Doc>)
    requires |docs| >= 1
    requires forall i :: 0 <= i < |docs| ==> '\n' !in Passages(docs)[i]
    ensures Split(Context(docs), '\n') == Passages(docs)
  {
    SplitJoin(Passages(docs), '\n');
  }

  /** The filled answer prompt: the mode's preamble, the context after its label and the question after its label. */
  function AnswerPrompt(p: Prompts, mode: string, author: seq<string>, context: string, question: string): (r: string)
    ensures r == Preamble(p, mode, author) + ContextLabel + context + QuestionLabel + question + AnswerLabel
  {
    FramedFormat(Preamble(p, mode, author), context, question);
    Format(TemplateFor(p, mode, author), map["context" := context, "question" := question])
  }

  /** `model[0] || "gpt-4.1"`: the first model of the list unless the list is empty or it is "". */
  function ModelName(models: seq<string>): (r: string)
    ensures r != ""
    ensures |models| > 0 && models[0] != "" ==> r == models[0]
    ensures |models| == 0 || models[0] == "" ==> r == DefaultModel
  {
    if |models| > 0 && models[0] != "" then models[0] else DefaultModel
  }

  /** One response entry: author, file name and passage, each with its `||` default. */
  function Project(d: Doc): (r: DocInfo)
    ensures r.fileName != "" && r.content != ""
    ensures Truthy(Meta(d, "author")) ==> r.author == Meta(d, "author").value
    ensures !Truthy(Meta(d, "author")) ==> r.author == ""
    ensures Truthy(Meta(d, "filename")) ==> r.fileName == Meta(d, "filename").value
    ensures !Truthy(Meta(d, "filename")) ==> r.fileName == "Unknown"
    ensures Truthy(Meta(d, "original_text")) ==> r.content == Meta(d, "original_text").value
    ensures !Truthy(Meta(d, "original_text")) ==> r.content == "No content available"
  {
    DocInfo(
      StringOr(Meta(d, "author"), ""),
      StringOr(Meta(d, "filename"), "Unknown"),
      StringOr(Meta(d, "original_text"), "No content available"))
  }

  /** `docs.map(...)`: one entry per retrieved document, in order. */
  function ProjectAll(docs: seq<Doc>): (r: seq<DocInfo>)
    ensures |r| == |docs|
    ensures forall i :: 0 <= i < |docs| ==> r[i] == Project(docs[i])
  {
    seq(|docs|, i requires 0 <= i < |docs| => Project(docs[i]))
  }

  /** For one list of documents, the listing and `Context` agree: a document with a passage is listed
      with exactly the passage `Context` takes from that list, and one without is listed with the
      placeholder while `Context` takes "" for it. */
  lemma ProjectionDefaults(docs: seq<Doc>, i: int)
    requires 0 <= i < |docs|
    ensures Truthy(Meta(docs[i], "original_text")) ==> ProjectAll(docs)[i].content == Passages(docs)[i]
    ensures !Truthy(Meta(docs[i], "original_text")) ==>
      ProjectAll(docs)[i].content == "No content available" && Passages(docs)[i] == ""
  {
  }

  // ------------------------------------------------------------ handler

  /** The reformulation call: fixed model and temperature, the history with the question pushed. */
  function ReformulationCall(p: Prompts, history: seq<Turn>, question: string): Call
  {
    Chat(ReformulationModel, Temperature, ReformulationMessages(p, history, question))
  }

  /** The answer call: the caller's model (or the default), the filled prompt as one user message. */
  function AnswerCall(p: Prompts, req: Request, docs: seq<Doc>, question: string): Call
  {
    Chat(ModelName(req.model), Temperature, [Turn(User, AnswerPrompt(p, req.mode, req.author, Context(docs), question))])
  }

  /** The response, the history afterwards, and the service calls made, in order. */
  datatype Outcome = Outcome(response: Response, history: seq<Turn>, calls: seq<Call>)

  /** One request, handled against a history. An exception of any service reaches the framework
      uncaught; the turns pushed before it stay in the history. */
  function Handle(p: Prompts, history: seq<Turn>, env: Env, req: Request, svc: Services): Outcome
  {
    match Validate(env, req)
    case Some(error) => Outcome(error, history, [])
    case None =>
      var q := req.question.value;
      if !svc.storeOpens then Outcome(Crashed, history, [])
      else
        var h1 := history + [Turn(User, q)];
        var c1 := ReformulationCall(p, h1, q);
        match svc.chat(c1)
        case Threw => Outcome(Crashed, h1, [c1])
        case Returned(content) =>
          var c2 := Search(SearchQuery(content, q), req.contextCount, req.author);
          match svc.search(1, c2)
          case Threw => Outcome(Crashed, h1, [c1, c2])
          case Returned(docs) =>
            var c3 := AnswerCall(p, req, docs, q);
            match svc.chat(c3)
            case Threw => Outcome(Crashed, h1, [c1, c2, c3])
            case Returned(answer) =>
              var text := answer.OrElse(NoAnswer);
              var h2 := h1 + [Turn(Assistant, text)];
              match svc.search(2, c2)
              case Threw => Outcome(Crashed, h2, [c1, c2, c3, c2])
              case Returned(shown) => Outcome(Answered(text, ProjectAll(shown), q), h2, [c1, c2, c3, c2])
  }

  /** The server process: the module-level `message_history` array, the route's prompt texts
      and the POST handler. */
  class ChatServer {
    var history: seq<Turn>
    const prompts: Prompts

    constructor ()
      ensures history == [] && prompts == RoutePrompts
    {
      history := [];
      prompts := RoutePrompts;
    }

    method Post(env: Env, req: Request, svc: Services) returns (resp: Response, ghost calls: seq<Call>)
      modifies this
      ensures Outcome(resp, history, calls) == Handle(prompts, old(history), env, req, svc)
    {
      calls := [];
      if !Truthy(req.question) {
        return Rejected(400, MissingQuestion), calls;
      }
      if !Configured(env) {
        return Rejected(500, MissingConfiguration), calls;
      }
      if !svc.storeOpens {
        return Crashed, calls;
      }
      var question := req.question.value;
      var template := TemplateFor(prompts, req.mode, req.author);
      history := history + [Turn(User, question)];

      var reformulate := ReformulationCall(prompts, history, question);
      calls := calls + [reformulate];
      var reformulated := svc.chat(reformulate);
      if reformulated.Threw? {
        return Crashed, calls;
      }
      var retrieve := Search(SearchQuery(reformulated.value, question), req.contextCount, req.author);
      calls := calls + [retrieve];
      var docs := svc.search(1, retrieve);
      if docs.Threw? {
        return Crashed, calls;
      }
      var context := Context(docs.value);
      FramedFormat(Preamble(prompts, req.mode, req.author), context, question);
      var prompt := Format(template, map["context" := context, "question" := question]);
      var ask := Chat(ModelName(req.model), Temperature, [Turn(User, prompt)]);
      calls := calls + [ask];
      var answer := svc.chat(ask);
      if answer.Threw? {
        return Crashed, calls;
      }
      var text := answer.value.OrElse(NoAnswer);
      history := history + [Turn(Assistant, text)];

      calls := calls + [retrieve];
      var shown := svc.search(2, retrieve);
      if shown.Threw? {
        return Crashed, calls;
      }
      resp := Answered(text, ProjectAll(shown.value), question);
    }
  }

  // ------------------------------------------------- properties of Handle

  /** A missing or falsy question is answered 400 before anything else is looked at: whatever the
      credentials, the history is untouched and no service is called. */
  lemma MissingQuestionRejectedFirst(p: Prompts, history: seq<Turn>, env: Env, req: Request, svc: Services)
    requires !Truthy(req.question)
    ensures Handle(p, history, env, req, svc) == Outcome(Rejected(400, MissingQuestion), history, [])
  {
  }

  /** Missing credentials are answered 500, but only once the question has passed. */
  lemma MissingCredentialsRejectedSecond(p: Prompts, history: seq<Turn>, env: Env, req: Request, svc: Services)
    requires Truthy(req.question) && !Configured(env)
    ensures Handle(p, history, env, req, svc) == Outcome(Rejected(500, MissingConfiguration), history, [])
  {
  }

  /** A rejected request changes nothing and calls nothing; any other request that gets past opening
      the index records the question first, and the history only ever grows, by at most two turns. */
  lemma HistoryGrowth(p: Prompts, history: seq<Turn>, env: Env, req: Request, svc: Services)
    ensures var o := Handle(p, history, env, req, svc);
      && (o.response.Rejected? ==> o.history == history && o.calls == [])
      && |history| <= |o.history| <= |history| + 2
      && o.history[..|history|] == history
      && (|o.history| > |history| ==> req.question.Some? && o.history[|history|] == Turn(User, req.question.value))
      && (o.response.Answered? <==> |o.calls| == 4 && svc.search(2, o.calls[1]).Returned?)
  {
  }

  /** A completed request adds exactly two turns, the question and then the answer; earlier turns are
      unchanged, and the question is echoed unchanged. The answer is the answer model's reply, or the
      fallback text when the reply has no content; the documents listed are those of the second search. */
  lemma CompletedExchange(p: Prompts, history: seq<Turn>, env: Env, req: Request, svc: Services)
    requires Handle(p, history, env, req, svc).response.Answered?
    ensures var o := Handle(p, history, env, req, svc);
      && Truthy(req.question) && Configured(env)
      && o.response.question == req.question.value
      && o.history == history + [Turn(User, req.question.value), Turn(Assistant, o.response.answer)]
      && |o.calls| == 4
      && svc.chat(o.calls[2]).Returned?
      && o.response.answer == svc.chat(o.calls[2]).value.OrElse(NoAnswer)
      && (svc.chat(o.calls[2]).value.Some? ==> o.response.answer == svc.chat(o.calls[2]).value.value)
      && (svc.chat(o.calls[2]).value.None? ==> o.response.answer == NoAnswer)
      && svc.search(2, o.calls[1]).Returned?
      && o.response.docs == ProjectAll(svc.search(2, o.calls[1]).value)
  {
  }

  /** The calls of a completed request and the data flowing between them: the reformulation over the
      history with the question pushed, the system instruction and the question again; a search for
      the reformulated text (or the question when it has none) with the caller's limit and author
      filter; the answer call whose prompt carries the first search's passages and the original
      question (not the reformulated one); and the same search again. */
  lemma CompletedCalls(p: Prompts, history: seq<Turn>, env: Env, req: Request, svc: Services)
    requires Handle(p, history, env, req, svc).response.Answered?
    ensures var o := Handle(p, history, env, req, svc);
      var q := req.question.value;
      && |o.calls| == 4
      && o.calls[0].Chat? && o.calls[0].modelName == ReformulationModel
      && |o.calls[0].messages| == |history| + 3
      && o.calls[0].messages[|history|] == Turn(User, q)
      && o.calls[0].messages[|history| + 2] == Turn(User, q)
      && o.calls[1].Search? && o.calls[1].k == req.contextCount && o.calls[1].authors == req.author
      && o.calls[0].messages == ReformulationMessages(p, history + [Turn(User, q)], q)
      && o.calls[0].messages[..|history|] == history
      && o.calls[0].messages[|history| + 1] == Turn(System, p.reformulation)
      && svc.chat(o.calls[0]).Returned?
      && o.calls[1] == Search(SearchQuery(svc.chat(o.calls[0]).value, q), req.contextCount, req.author)
      && o.calls[3] == o.calls[1]
      && svc.search(1, o.calls[1]).Returned?
      && o.calls[2] == AnswerCall(p, req, svc.search(1, o.calls[1]).value, q)
      && o.calls[2].Chat? && o.calls[2].modelName == ModelName(req.model)
      && o.calls[2].messages == [Turn(User, Preamble(p, req.mode, req.author) + ContextLabel
           + Context(svc.search(1, o.calls[1]).value) + QuestionLabel + q + AnswerLabel)]
  {
    var q := req.question.value;
    var h1 := history + [Turn(User, q)];
    var content := svc.chat(ReformulationCall(p, h1, q)).value;
    var docs := svc.search(1, Search(SearchQuery(content, q), req.contextCount, req.author)).value;
    assert Handle(p, history, env, req, svc).calls[2] == AnswerCall(p, req, docs, q);
  }

  /** When the index honours the result limit, the response lists at most `contextCount` documents. */
  lemma ResponseDocsBounded(p: Prompts, history: seq<Turn>, env: Env, req: Request, svc: Services)
    requires forall n, query :: svc.search(n, Search(query, req.contextCount, req.author)).Returned? ==>
      |svc.search(n, Search(query, req.contextCount, req.author)).value| <= req.contextCount
    requires Handle(p, history, env, req, svc).response.Answered?
    ensures |Handle(p, history, env, req, svc).response.docs| <= req.contextCount
  {
  }

  /** When the index honours the author filter, every listed document names an author of the filter. */
  lemma ResponseDocsFiltered(p: Prompts, history: seq<Turn>, env: Env, req: Request, svc: Services)
    requires forall n, query, d ::
      (svc.search(n, Search(query, req.contextCount, req.author)).Returned? &&
       d in svc.search(n, Search(query, req.contextCount, req.author)).value) ==>
      Meta(d, "author").Some? && Meta(d, "author").value in req.author
    requires Handle(p, history, env, req, svc).response.Answered?
    ensures forall e :: e in Handle(p, history, env, req, svc).response.docs ==> e.author in req.author
  {
    var o := Handle(p, history, env, req, svc);
    var q := req.question.value;
    var h1 := history + [Turn(User, q)];
    var content := svc.chat(ReformulationCall(p, h1, q)).value;
    var c2 := Search(SearchQuery(content, q), req.contextCount, req.author);
    var shown := svc.search(2, c2).value;
    forall e | e in o.response.docs ensures e.author in req.author {
      var i :| 0 <= i < |shown| && e == Project(shown[i]);
      assert shown[i] in shown;
    }
  }

  // ------------------------------------------------- a run of requests

  /** Requests handled one after another against a shared history by a request handler:
      the responses and the final history. */
  function Run(step: (seq<Turn>, Request) -> Outcome, history: seq<Turn>, reqs: seq<Request>): (r: (seq<Response>, seq<Turn>))
    ensures |r.0| == |reqs|
  {
    if |reqs| == 0 then ([], history)
    else
      var (rs, h) := Run(step, history, reqs[..|reqs| - 1]);
      var o := step(h, reqs[|reqs| - 1]);
      (rs + [o.response], o.history)
  }

  /** The route's handler as a step of a run. */
  function HandlerStep(p: Prompts, env: Env, svc: Services): (seq<Turn>, Request) -> Outcome
  {
    (h, r) => Handle(p, h, env, r, svc)
  }

  /** A handler whose every answered request adds the question and then the answer to the history. */
  ghost predicate RecordsExchanges(step: (seq<Turn>, Request) -> Outcome)
  {
    forall h, r :: step(h, r).response.Answered? ==>
      r.question.Some? && step(h, r).history == h + [Turn(User, r.question.value), Turn(Assistant, step(h, r).response.answer)]
  }

  /** The route's handler records each answered exchange. */
  lemma HandlerRecordsExchanges(p: Prompts, env: Env, svc: Services)
    ensures RecordsExchanges(HandlerStep(p, env, svc))
  {
    forall h, r | HandlerStep(p, env, svc)(h, r).response.Answered?
      ensures r.question.Some? && HandlerStep(p, env, svc)(h, r).history
        == h + [Turn(User, r.question.value), Turn(Assistant, HandlerStep(p, env, svc)(h, r).response.answer)]
    {
      CompletedExchange(p, h, env, r, svc);
    }
  }

  /** The turns a run of completed requests leaves: per request, its question and then its answer. */
  function Transcript(reqs: seq<Request>, rs: seq<Response>): (t: seq<Turn>)
    requires |rs| == |reqs|
    requires forall i :: 0 <= i < |rs| ==> rs[i].Answered? && reqs[i].question.Some?
    ensures |t| == 2 * |reqs|
  {
    if |reqs| == 0 then []
    else
      var n := |reqs| - 1;
      Transcript(reqs[..n], rs[..n]) + [Turn(User, reqs[n].question.value), Turn(Assistant, rs[n].answer)]
  }

  /** After N answered requests the history has gained exactly 2N turns, question then answer,
      in submission order. */
  lemma {:induction false} RunCompleted(step: (seq<Turn>, Request) -> Outcome, history: seq<Turn>, reqs: seq<Request>)
    requires RecordsExchanges(step)
    requires forall i :: 0 <= i < |reqs| ==> Run(step, history, reqs).0[i].Answered?
    ensures forall i :: 0 <= i < |reqs| ==> reqs[i].question.Some?
    ensures Run(step, history, reqs).1 == history + Transcript(reqs, Run(step, history, reqs).0)
    ensures |Run(step, history, reqs).1| == |history| + 2 * |reqs|
    decreases |reqs|
  {
    if |reqs| > 0 {
      var n := |reqs| - 1;
      var init := reqs[..n];
      var before := Run(step, history, init);
      var o := step(before.1, reqs[n]);
      var all := Run(step, history, reqs).0;
      assert all == before.0 + [o.response];
      assert all[..n] == before.0 && all[n] == o.response;
      assert forall i :: 0 <= i < n ==> before.0[i] == all[i];
      RunCompleted(step, history, init);
      assert forall i :: 0 <= i < n ==> init[i] == reqs[i];
      assert Transcript(reqs, all) == Transcript(init, before.0)
        + [Turn(User, reqs[n].question.value), Turn(Assistant, o.response.answer)];
    }
  }

  /** The route: after N answered requests its history has gained exactly 2N turns, question
      then answer, in submission order. */
  lemma ServeCompleted(p: Prompts, history: seq<Turn>, env: Env, reqs: seq<Request>, svc: Services)
    requires forall i :: 0 <= i < |reqs| ==> Run(HandlerStep(p, env, svc), history, reqs).0[i].Answered?
    ensures forall i :: 0 <= i < |reqs| ==> reqs[i].question.Some?
    ensures var (rs, h) := Run(HandlerStep(p, env, svc), history, reqs);
      h == history + Transcript(reqs, rs) && |h| == |history| + 2 * |reqs|
  {
    HandlerRecordsExchanges(p, env, svc);
    RunCompleted(HandlerStep(p, env, svc), history, reqs);
  }
}
