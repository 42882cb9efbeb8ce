# Humanitext chat and reader logic in Dafny

This project models the logic around the hosted services in Humanitext, a
retrieval-augmented chat and reading site for classical texts:

- **The chat API route** (`POST /api/chat`). It validates the request, picks
  one of four prompt templates by answer mode, and pushes the question onto
  the process-wide `message_history`. It asks a chat model to reformulate the
  question against that history, then runs a similarity search with the
  reformulated query. It fills the template with the retrieved passages and
  the original question, asks the answer model, and pushes the answer. The
  response lists the sources with default values for missing fields.
- **The chat page**. It derives the authors offered for the selected genres
  ("All" or no selection means every genre) and reconciles the author
  selection when the genres change. The author picker maps to a selection. A
  send appends to the message log, and the reference panels have per-key
  show/hide toggles.
- **The reader page**. It offers authors per genre and works per author, and
  chooses the first work and the first book by default. "Show text" is
  guarded and folds the commentary query's result rows into the page's
  persistent list of annotated lines: an existing line gains a commentary
  slot, and a new line is appended. The page also decides which lines are
  clickable, builds the commentary URL, and builds the translate/summarise
  prompt.

The hosted services are function-valued parameters that return a value or
throw (`Values.Reply`): the vector index, the chat models, the SPARQL
endpoint and the Gemini model. Only what is sent to them and what comes back
is modelled. `encodeURIComponent` is a total function parameter
`string -> string` of the URL functions; it never throws in the model. The route's `message_history` is the
`history` field of `ChatRoute.ChatServer`, and `Post` is the handler. The
reader's `texts.value` is the `texts` field of `Reader.ReaderState`,
updated in place by `MergeBindings`, a loop over the result rows.
`ChatRoute.Handle`, `ChatPage.LogAfterSend` and `Reader.MergeAll` are the
specification functions the methods are proved against. `Reader.ReaderState`
keeps the invariant `Valid()`: the list of annotated lines names each line
once.

The shared modules model JavaScript behaviour the code relies on:

- `Values`: `??`, `||` and truthiness on optional strings.
- `Text`: `join`, `split` on one character, `trim` with the ECMAScript
  white-space set, and `includes`.
- `Seqs`: `Array.from(new Set(xs))`, `filter` by membership, and `flat`.
- `Tables`: object literals as ordered key/list tables, `t[k] || []`, and
  `Object.values(t).flat()`.

Two JavaScript details shape the model:

- The route interpolates the request's `author` array into the persona
  template. JavaScript renders the array joined by ",", so
  `ChatRoute.Preamble` uses `Join(author, ",")`.
- The context uses `?? ""`, so only a missing passage becomes "". The
  response uses `||`, so a missing or empty field takes its default.

A failed reformulation crashes the request. The `??` at
`src/app/api/chat/route.ts:142` reads as if the original question were the
fallback when reformulation fails. However, the call at line 141 has no
exception handler, and neither has any other awaited call in the route. So
a failing reformulation, search or answer call ends the request with the
framework's generic error (`ChatRoute.Response.Crashed`). Any turn already
pushed stays in the history. The model follows the code: `??` only replaces
missing content, and an empty reformulation is kept as the query.

## Model

| member | source | states |
|---|---|---|
| Values.Option.OrElse | src/app/api/chat/route.ts:142 | `x ?? d` is the value when present and `d` only when it is missing |
| Values.StringOr | src/app/api/chat/route.ts:179-182 | `s \|\| d` is `s` when it is present and non-empty, otherwise `d`; the result is empty only when `d` is |
| Text.Split | src/app/api/chat/route.ts:153 | splitting on a character gives at least one piece and no piece holds the separator |
| Text.SplitJoin | src/app/api/chat/route.ts:153 | joining pieces that do not contain the separator and splitting again gives back the pieces |
| Text.JoinSplit | src/app/api/chat/route.ts:153 | splitting and joining again with the same separator gives back the string |
| Text.Join | src/app/api/chat/route.ts:153 | joining no parts gives "" and one part gives that part; with `Text.JoinAppend` one more part adds the separator and the part, and `Text.SplitJoin`/`Text.JoinSplit` make `Split` its inverse |
| Text.JoinAppend | src/app/api/chat/route.ts:153 | joining one more part appends the separator and the part to the join of the others |
| Text.TrimStart | src/app/chat/page.tsx:143 | removes exactly the leading white space: the result is a suffix, every removed character is white space, and the result does not start with white space |
| Text.TrimEnd | src/app/chat/page.tsx:143 | the same at the end of the string |
| Text.TrimStrips | src/app/chat/page.tsx:143 | `s.trim()` is a stretch of `s` with only white space before and after it, and it neither starts nor ends with white space |
| Text.BlankIffAllSpace | src/app/chat/page.tsx:143 | `!input.trim()` holds exactly when every character of the input is white space |
| Seqs.Dedup | src/app/chat/page.tsx:52-66 | `Array.from(new Set(s))` has no duplicates, has the same elements as `s`, and is no longer than `s` |
| Seqs.DedupKeepsFirstOccurrenceOrder | src/app/chat/page.tsx:52-66 | the deduplicated elements stand in the order of their first occurrences |
| Seqs.DedupOfDistinct | src/app/chat/page.tsx:52-66 | a list without duplicates is its own deduplication |
| Seqs.Keep | src/app/chat/page.tsx:85 | `s.filter(a => pool.includes(a))` holds exactly the elements of `s` that are in `pool` |
| Seqs.KeepAppend | src/app/chat/page.tsx:85 | filtering distributes over concatenation, so the kept elements keep their relative order |
| Seqs.KeepAll | src/app/chat/page.tsx:85 | a list whose elements are all in the pool passes the filter whole |
| Seqs.KeepIdempotent | src/app/chat/page.tsx:85 | filtering twice by the same pool is filtering once |
| Seqs.KeepNoDup | src/app/chat/page.tsx:85 | filtering a list without duplicates gives a list without duplicates |
| Seqs.Flatten | src/app/chat/page.tsx:53 | an element of `ss.flat()` is exactly an element of one of the lists |
| Seqs.FlattenAppend | src/app/chat/page.tsx:53 | flattening distributes over concatenation, so the lists' elements stand in list order with their multiplicities |
| Seqs.FlattenOne | src/app/chat/page.tsx:53 | a single list flattens to itself |
| Tables.Lookup | src/app/reader/page.tsx:102 | `t[key] \|\| []` is the list stored under the key, or [] for an unknown key |
| Tables.AllValues | src/app/reader/page.tsx:100 | the deduplicated union of every list of the table: no duplicates, a name is in it exactly when some entry lists it, and the names stand in the order the entries, read in key order, first list them |
| ChatRoute.Validate | src/app/api/chat/route.ts:26-31 | a falsy question gives 400 with its message whatever the credentials; otherwise a missing credential gives 500; no error exactly when both checks pass |
| ChatRoute.FormatWithPlaceholders | src/app/api/chat/route.ts:115 | filling each slot with its own `{name}` placeholder reproduces the template text |
| ChatRoute.FramedSource | src/app/api/chat/route.ts:57-113 | every template text is its preamble followed by the context, question and answer labels with the `{context}` and `{question}` placeholders |
| ChatRoute.FramedFormat | src/app/api/chat/route.ts:115-167 | a filled template is the preamble, the context after its label and the question after its label |
| ChatRoute.Preamble | src/app/api/chat/route.ts:57-113 | "research", "study" and "qa" select their own preambles; every other mode gets the persona preamble (see `ChatRoute.PersonaTemplateNamesAuthor`) |
| ChatRoute.TemplateFor | src/app/api/chat/route.ts:57-113 | the template chosen for any mode contains both `{context}` and `{question}` |
| ChatRoute.RouteTemplatesDistinct | src/app/api/chat/route.ts:58-107 | "research", "study" and "qa" select three different templates |
| ChatRoute.FixedTemplatesIgnoreAuthor | src/app/api/chat/route.ts:58-107 | the three fixed templates do not depend on the author list |
| ChatRoute.PersonaTemplateNamesAuthor | src/app/api/chat/route.ts:108-112 | any other mode selects the persona template, which starts with the persona opening and differs whenever the rendered author lists differ |
| ChatRoute.ReformulationMessages | src/app/api/chat/route.ts:122-138 | the reformulation input is the whole history, then the system instruction, then the question |
| ChatRoute.SearchQuery | src/app/api/chat/route.ts:142 | the search query is the reformulated content unless it is missing, in which case it is the question; an empty reformulation is kept |
| ChatRoute.Meta | src/app/api/chat/route.ts:179-182 | `doc.metadata?.[key]` is present exactly when the metadata and the key are, and then it is the stored value |
| ChatRoute.Passages | src/app/api/chat/route.ts:153 | one passage per retrieved document, in rank order, a missing one as "" |
| ChatRoute.Context | src/app/api/chat/route.ts:153 | no documents give an empty context, one gives its passage, and each further document adds a newline and its passage; `ChatRoute.ContextSplitsIntoPassages` splits it back |
| ChatRoute.ContextSplitsIntoPassages | src/app/api/chat/route.ts:153 | the context block splits back into the passages, in rank order, when no passage holds a newline |
| ChatRoute.AnswerPrompt | src/app/api/chat/route.ts:146-167 | the answer prompt is the mode's preamble, the context after its label and the original question after its label |
| ChatRoute.ModelName | src/app/api/chat/route.ts:160 | the answer model is `model[0]` unless the list is empty or that entry is "", then "gpt-4.1"; never empty |
| ChatRoute.Project | src/app/api/chat/route.ts:179-182 | file name and content are never empty; each field is the document's metadata value when that is present and non-empty, else "" for the author, "Unknown" for the file name and "No content available" for the content |
| ChatRoute.ProjectAll | src/app/api/chat/route.ts:178-183 | one response entry per retrieved document, in order, each the projection of its document |
| ChatRoute.ProjectionDefaults | src/app/api/chat/route.ts:153-182 | for one list of documents, an entry with a passage is listed with exactly the passage `Context` takes from that list; one without is listed as "No content available" while `Context` takes "" for it |
| ChatRoute.ChatServer.constructor | src/app/api/chat/route.ts:15 | the server starts with an empty history and the route's prompt texts |
| ChatRoute.ChatServer.Post | src/app/api/chat/route.ts:17-186 | the handler's response, its new history and its service calls are those of the specification function `ChatRoute.Handle` on the old history, whose behaviour the lemmas below state |
| ChatRoute.MissingQuestionRejectedFirst | src/app/api/chat/route.ts:26-28 | a falsy question is answered 400 before anything else: the history is unchanged and no service is called, whatever the credentials |
| ChatRoute.MissingCredentialsRejectedSecond | src/app/api/chat/route.ts:26-31 | a missing credential is answered 500 only once the question has passed; history unchanged, no call |
| ChatRoute.HistoryGrowth | src/app/api/chat/route.ts:118-170 | a rejection changes nothing and calls nothing; otherwise the history only grows, by at most two turns, keeping every earlier turn, and the first new turn is the user's question; a response is an answer exactly when all four calls returned |
| ChatRoute.CompletedExchange | src/app/api/chat/route.ts:118-184 | a completed request adds exactly the user's question and then the assistant's answer; the question is echoed unchanged; the answer is the answer model's reply, or "回答を生成できませんでした。" when it has no content; the documents listed are the projection of the second search's results |
| ChatRoute.CompletedCalls | src/app/api/chat/route.ts:128-173 | a completed request makes four calls: the reformulation with "gpt-4.1" over the history with the question pushed, then the system instruction and the question; a search for the reformulated text (or the question when it has none) with the caller's limit and authors; the answer call with the chosen model whose prompt carries the first search's passages and the original question; and the same search again |
| ChatRoute.ResponseDocsBounded | src/app/api/chat/route.ts:173-183 | when the index honours `k`, the response lists at most `contextCount` documents |
| ChatRoute.ResponseDocsFiltered | src/app/api/chat/route.ts:173-183 | when the index honours the author filter, every listed document's author is one of the requested authors |
| ChatRoute.Run | src/app/api/chat/route.ts:15 | requests handled in turn against the shared history give one response per request |
| ChatRoute.HandlerRecordsExchanges | src/app/api/chat/route.ts:118-170 | every answered request adds its question and then its answer to the history it was given |
| ChatRoute.Transcript | src/app/api/chat/route.ts:118-170 | a run of answered requests leaves two turns per request |
| ChatRoute.RunCompleted | src/app/api/chat/route.ts:118-170 | for a handler that records each answered exchange, N answered requests add exactly 2N turns, each question followed by its answer, in submission order |
| ChatRoute.ServeCompleted | src/app/api/chat/route.ts:118-170 | after N answered requests the route's history has gained exactly 2N turns, each question followed by its answer, in submission order |
| ChatPage.GenreLists | src/app/chat/page.tsx:64 | `genre_author[g] \|\| []` for each selected genre, in selection order |
| ChatPage.AvailableAuthors | src/app/chat/page.tsx:50-67 | never has duplicates; with "All" or no genre it is the deduplicated union of every genre's authors; otherwise an author is offered exactly when a selected genre lists it |
| ChatPage.AvailableAuthorsOrder | src/app/chat/page.tsx:62-66 | for a specific selection the authors stand in the order the selected genres first list them |
| ChatPage.UnknownGenreContributesNothing | src/app/chat/page.tsx:64 | also selecting a genre the table does not know changes nothing |
| ChatPage.InitialAuthors | src/app/chat/page.tsx:42-59 | with no genre selected the page offers Plato, Aristotle, Cicero and Homer, in that order |
| ChatPage.Reconcile | src/app/chat/page.tsx:76-92 | the new selection lies within the offered authors and has no duplicates; with "All" it is every offered author; otherwise the surviving current authors, or every offered author if none survives |
| ChatPage.ReconcileIdempotent | src/app/chat/page.tsx:76-92 | reconciling an already reconciled selection changes nothing |
| ChatPage.ReconcileKeepsOrder | src/app/chat/page.tsx:85-90 | surviving authors keep their relative order |
| ChatPage.AuthorOptions | src/app/chat/page.tsx:70-73 | one picker option per offered author, in order, with that author as value and label |
| ChatPage.SelectedAuthors | src/app/chat/page.tsx:98-101 | a cleared picker selects nobody; otherwise the option values, in order |
| ChatPage.PickOffered | src/app/chat/page.tsx:70-101 | picking the options offered for some authors selects exactly those authors, in order |
| ChatPage.Toggled | src/app/chat/page.tsx:167-172 | toggling negates the flag of the key, an absent key counting as off, and leaves every other key as it was |
| ChatPage.ToggleTwice | src/app/chat/page.tsx:167-172 | toggling the same key twice shows and hides exactly what was shown and hidden before |
| ChatPage.NatText | src/app/chat/page.tsx:397 | the decimal text of a number is a non-empty string of digits |
| ChatPage.DecimalRoundTrip | src/app/chat/page.tsx:397 | reading back the decimal text of a number gives the number |
| ChatPage.DocKeysDistinct | src/app/chat/page.tsx:389-400 | different (message, document) positions have different panel keys, so a toggle never affects another panel |
| ChatPage.ReplyFor | src/app/chat/page.tsx:153-161 | an answered request gives its answer and documents to the page, a rejected one neither, a crashed one no JSON |
| ChatPage.LogAfterSend | src/app/chat/page.tsx:141-164 | a white-space-only input leaves the log unchanged; otherwise the log gains the user's message and, exactly when the reply parsed, the assistant's message with documents defaulting to []; an unparsed reply adds the user's message alone; earlier entries are kept |
| ChatPage.SendKeepsLogWellFormed | src/app/chat/page.tsx:143-162 | a send taken as one step from submit to reply keeps the log well formed: every assistant message follows a user message, and every user message is a non-blank question |
| ChatPage.LogExtended | src/app/chat/page.tsx:155-162 | a question followed by at most one assistant message keeps a log well formed |
| ChatPage.ChatPageState.constructor | src/app/chat/page.tsx:20-33 | the initial state: empty input and log, mode "qa", model ["gpt-4.1"], five contexts, nothing selected or expanded, not mounted; `Valid()` holds |
| ChatPage.ChatPageState.Mount | src/app/chat/page.tsx:36-38 | mounting sets the mounted flag and nothing else |
| ChatPage.ChatPageState.GenreEffect | src/app/chat/page.tsx:76-92 | once mounted the author selection becomes the reconciled one, within the offered authors; before mounting nothing changes |
| ChatPage.ChatPageState.SelectGenres | src/app/chat/page.tsx:196-199 | the genre picker sets the genres and the selection is reconciled |
| ChatPage.ChatPageState.ChangeAuthors | src/app/chat/page.tsx:98-101 | the author picker sets the selection to the picked values |
| ChatPage.ChatPageState.Type | src/app/chat/page.tsx:346 | typing sets the input and nothing else |
| ChatPage.ChatPageState.Send | src/app/chat/page.tsx:141-164 | a send taken as one step: the log becomes `LogAfterSend` of the old log and input; the input is cleared only after a parsed reply; `Valid()` (a well-formed log) is kept |
| ChatPage.ChatPageState.ToggleDoc | src/app/chat/page.tsx:167-172 | only the flag of the given panel key is toggled |
| ChatPage.ChatPageState.ToggleContext | src/app/chat/page.tsx:376-379 | only the flag of the given message index is toggled |
| ChatPage.SendLogsRouteAnswer | src/app/chat/page.tsx:145-162 | a send the route answers logs the question, then the route's answer with its documents |
| ChatPage.SendLogsRejection | src/app/chat/page.tsx:145-162 | a send the route rejects logs the question, then an assistant message without text and with no documents |
| Reader.Choices | src/app/reader/page.tsx:98-111 | with 'All' or no selection, the deduplicated union of the table's lists; otherwise the key's list, or [] |
| Reader.ChoicesWithinTable | src/app/reader/page.tsx:98-111 | every choice is a value of the table, and an unknown key offers nothing |
| Reader.WorksOfPlato | src/app/reader/page.tsx:89-111 | Plato, listed second in the works table, offers Republic, Phaedrus and Symposium |
| Reader.DefaultWork | src/app/reader/page.tsx:124-130 | the first offered work when an author is selected and works exist, else '' |
| Reader.DefaultBook | src/app/reader/page.tsx:116-122 | the first offered book, else '' |
| Reader.BooksFor | src/app/reader/page.tsx:132-159 | no books unless author and work are both set; otherwise the query's books, or none when it fails |
| Reader.SettledSelection | src/app/reader/page.tsx:116-159 | after an author is picked and the defaults settle, "show text" is possible exactly when the author has a non-empty first work and the book query returns a non-empty first book |
| Reader.Find | src/app/reader/page.tsx:269 | `find` by line returns the first entry with that line, or -1 exactly when none exists |
| Reader.MergeOne | src/app/reader/page.tsx:269-283 | a known line gains exactly one commentary slot (the commentary, or null) and nothing else changes; an unknown line is appended with `[commentary]`, or [] without one |
| Reader.MergeAll | src/app/reader/page.tsx:261-284 | merging rows in order adds at most one entry per row and never removes one |
| Reader.MergeOneKeepsLinesUnique | src/app/reader/page.tsx:269-283 | one merged row keeps line ids unique |
| Reader.MergeAllKeepsLinesUnique | src/app/reader/page.tsx:261-284 | merging any rows keeps line ids unique |
| Reader.ExtendsTransitive | src/app/reader/page.tsx:261-284 | keeping entries in place while extending their commentary composes |
| Reader.MergeAllExtends | src/app/reader/page.tsx:261-284 | merging never removes or reorders an entry and never rewrites a commentary slot |
| Reader.MergeAllAppend | src/app/reader/page.tsx:261-284 | merging two batches in turn is merging them together, so results accumulate across "show text" clicks |
| Reader.MergeAllLines | src/app/reader/page.tsx:261-284 | after a merge, a line is listed exactly when it was listed before or some row names it |
| Reader.ExtendsKeepsClickable | src/app/reader/page.tsx:300-338 | a clickable line (set, listed, with at least one commentary slot) stays clickable in an extended list, at the same position, with its earlier slots in place |
| Reader.ClickableStaysClickable | src/app/reader/page.tsx:261-338 | once a line is clickable, later "show text" merges keep it clickable and keep its earlier commentary slots |
| Reader.FetchTargets | src/app/reader/page.tsx:437-444 | a click fetches exactly the commentaries held in non-empty slots, no more fetches than slots |
| Reader.FetchTargetsAppend | src/app/reader/page.tsx:437-444 | the fetches for two runs of slots are those of the first then those of the second: one fetch per non-empty slot, in slot order |
| Reader.ShowTwiceFetchesTwice | src/app/reader/page.tsx:261-444 | a new line whose one commentary row is shown twice holds it in two slots, so a click fetches that commentary twice |
| Reader.RepeatedLineWithoutCommentary | src/app/reader/page.tsx:272-315 | a new line that arrives twice without commentary becomes clickable, yet a click fetches nothing |
| Reader.SingleLineWithoutCommentary | src/app/reader/page.tsx:281-315 | a new line that arrives once without commentary is listed but not clickable |
| Reader.CopyUrl | src/app/reader/page.tsx:725 | the copied URL is the site's origin followed by the very path a click pushes |
| Reader.CommentaryPath | src/app/reader/page.tsx:421 | the pushed path starts with "/reader/" and is exactly the four encoded components plus eleven separator characters long; `Reader.PathSegments` splits it back |
| Reader.PathSegments | src/app/reader/page.tsx:421 | with an encoding that never emits '/', the path splits into "", "reader" and the four encoded components |
| Reader.PathIdentifiesLine | src/app/reader/page.tsx:421 | with an injective encoding that never emits '/', the path identifies author, work, book and line |
| Reader.LlmPrompt | src/app/reader/page.tsx:666-671 | "translate" and "summarize" prompts name the language and end with the text; any other mode gives '' |
| Reader.PromptCarriesText | src/app/reader/page.tsx:666-671 | for one mode and language the prompt ends with the text, and different texts give different prompts |
| Reader.PromptsDifferByMode | src/app/reader/page.tsx:666-671 | for one text and language, translating and summarising use different prompts |
| Reader.LlmResult | src/app/reader/page.tsx:679-688 | the helper returns the model's text when it is present and non-empty, else '' (a failed call included) |
| Reader.LlmProcess | src/app/reader/page.tsx:664-689 | the helper's result is '' or the model's text for the prompt, and non-empty exactly when the model returned a non-empty text |
| Reader.ReaderState.constructor | src/app/reader/page.tsx:34-45 | the page starts with nothing selected, no books and no annotated lines, so `Valid()` holds |
| Reader.ReaderState.WorkEffect | src/app/reader/page.tsx:124-130 | the work becomes the default work for the author, one of its offered works when set |
| Reader.ReaderState.BooksEffect | src/app/reader/page.tsx:132-159 | the offered books become those for the author and work |
| Reader.ReaderState.BookEffect | src/app/reader/page.tsx:116-122 | the book becomes the first offered book, else '' |
| Reader.ReaderState.PickAuthor | src/app/reader/page.tsx:116-159 | picking an author sets it, then the work, the books and the book by their defaults |
| Reader.ReaderState.MergeBindings | src/app/reader/page.tsx:261-284 | the loop over the rows leaves the list equal to `MergeAll` of the old list and the rows, and each line is still listed once |
| Reader.ReaderState.ShowText | src/app/reader/page.tsx:232-284 | "show text" proceeds exactly when author, work and book are all set (`CanShowText`); otherwise the user is alerted and nothing changes; the returned rows are merged into the list, a failed query changes nothing, and each line stays listed once |

## Left out

- Network I/O is not modelled beyond what is sent and what comes back. This covers the Pinecone retriever, the OpenAI embeddings and chat calls, Gemini `generateContent`, the SPARQL `fetch` calls and the DTS `getHTML5` call. Similarity ranking and model output are unobservable, so they are parameters.
- The SPARQL query texts and `encodeURIComponent` are interpreted by a remote engine or a library. The encoder is a function parameter, and the URL lemmas state their assumptions about it.
- `Reader.CommentaryPath`: `encodeURIComponent` throws a `URIError` on a string holding a lone surrogate, which would abort the click handler; the encoder parameter is total, so that failure is not modelled.
- DOM construction, the CETEI behaviours, the commentary cards, the clipboard write and its fallback, and all JSX rendering are out of scope.
- Simultaneous requests sharing `message_history` are not modelled; requests are handled one at a time.
- `ChatPage.ChatPageState.Send`: a send is modelled as one step from submit to reply. The page awaits the request between logging the question and logging the answer, and the submit button stays enabled, so a second submit while one is pending interleaves the entries (for example question, question, answer, answer). Such overlapping sends are not modelled, and `ChatPage.SendKeepsLogWellFormed` and `Valid()` hold only for sends that do not overlap.
- React effect scheduling is not modelled. `ChatPage.ChatPageState.SelectGenres` runs the reconciliation effect directly after setting the genres. `Reader.ReaderState.PickAuthor` runs the work, books and book effects in turn. The books request React also fires for the new author with the previous work, which can race with the later one, is not modelled.
- The chat page's mode-change POST effect, which sends a request whose answer is only logged, is out of scope.
- The reader's effect that reads `authorOptions` before its declaration and reassigns a memo value is out of scope.
- The reader's genre picker passes an array to a string-typed setter; this is out of scope.
- `alert`/`console` output and the translation/summary dialog state are not modelled.
- `ChatRoute.Handle`: an exception becomes `Crashed`, without the framework's status code or body.
- `ChatRoute.Handle`: braces in an author name, which would make template parsing fail, are not modelled.
- `ChatRoute.Handle`: a request body without a `model` array, where `model[0]` throws, is not modelled.
- `ChatRoute.Handle`: JSON values of unexpected types are not modelled. The request fields and the document metadata are typed strings and lists.
- `Tables.Lookup`: keys inherited from `Object.prototype` (such as "constructor") are not modelled; they would return a function rather than [].
- `ChatPage.Message`: the reply's `docs` field is taken to be a list when present. Any other JSON value is not modelled.
- `Reader.ReaderState.ShowText`: the text server request, the XML fetch and the rendering that follow the merge are not modelled.
- `Reader.ReaderState.ShowText`: the merge is modelled on a sequence of entries. The source mutates a shared entry object in place, which no other code observes.
- `Reader.LlmProcess`: only the returned string is modelled. The alert and the logging on failure are left out.
