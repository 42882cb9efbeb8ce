/**
 * The reader page: the author, work and book pickers and their defaults, the
 * "show text" action that merges the commentary query's result rows into the
 * page's persistent list of annotated lines, the test that makes a line
 * clickable, the commentary URL, and the prompt of the translate/summarise
 * helper.
 *
 * The query endpoint, the text server, the language model and
 * `encodeURIComponent` are outside the model: their answers are parameters.
 */
module Reader {
  import opened Values
  import opened Text
  import opened Seqs
  import opened Tables

  // --------------------------------------------------------------- pickers

  /** The page's genre → authors table. */
  const GenreAuthors: Table := [
    ("western_classics", ["Homer", "Plato", "Aristotle", "Cicero"]),
    ("PhilGreek", ["Plato", "Aristotle"]),
    ("PhilRoma", ["Cicero"]),
    ("LitGreek", ["Homer"])
  ]

  /** The page's author → works table. */
  const AuthorWorks: Table := [
    ("Aristotle", ["Metaphysics", "Rhetoric", "Topica"]),
    ("Plato", ["Republic", "Phaedrus", "Symposium"]),
    ("Cicero", ["De Oratore", "De Re Publica"]),
    ("Homer", ["The Iliad", "The Odyssey"])
  ]

  /** The choices offered under a selected key (`availableAuthors` for a genre, `availableWorks`
      for an author): everything, once each, for 'All' or no selection; otherwise the key's list, or []. */
  function Choices(t: Table, key: string): (r: seq<string>)
    ensures key == "All" || key == "" ==> r == AllValues(t) && NoDup(r)
    ensures key != "All" && key != "" ==> r == Lookup(t, key)
  {
    if key == "All" || key == "" then AllValues(t) else Lookup(t, key)
  }

  /** Whatever is selected, every choice offered is one of the table's values, and a key the table
      does not know (other than 'All' and '') offers nothing. */
  lemma ChoicesWithinTable(t: Table, key: string)
    requires KeysDistinct(t)
    ensures forall x :: x in Choices(t, key) ==> x in AllValues(t)
    ensures key != "All" && key != "" && !HasKey(t, key) ==> Choices(t, key) == []
  {
    if key != "All" && key != "" && HasKey(t, key) {
      var i :| 0 <= i < |t| && t[i].0 == key;
      assert Choices(t, key) == t[i].1;
    }
  }

  /** Plato, listed second in the works table, offers exactly the three works listed for him. */
  lemma WorksOfPlato()
    ensures Choices(AuthorWorks, "Plato") == ["Republic", "Phaedrus", "Symposium"]
  {
    assert AuthorWorks[0].0 != "Plato";
    assert AuthorWorks[1..][0].0 == "Plato";
  }

  /** The work chosen when the author or the offered works change: the first offered work when an
      author is selected and there is one, else none. */
  function DefaultWork(author: string, works: seq<string>): (r: string)
    ensures author != "" && |works| > 0 ==> r == works[0] && r in works
    ensures author == "" || |works| == 0 ==> r == ""
  {
    if author != "" && |works| > 0 then works[0] else ""
  }

  /** The book chosen when the list of books changes: the first, else none. */
  function DefaultBook(books: seq<string>): (r: string)
    ensures |books| > 0 ==> r == books[0] && r in books
    ensures |books| == 0 ==> r == ""
  {
    if |books| > 0 then books[0] else ""
  }

  /** The books offered for an author and a work: none unless both are selected, otherwise what the
      query returned, or none if it failed. */
  function BooksFor(author: string, work: string, fetched: Reply<seq<string>>): (r: seq<string>)
    ensures author == "" || work == "" ==> r == []
    ensures author != "" && work != "" && fetched.Returned? ==> r == fetched.value
    ensures fetched.Threw? ==> r == []
  {
    if author == "" || work == "" then []
    else
      match fetched
      case Returned(books) => books
      case Threw => []
  }

  /** "Show text" proceeds only when an author, a work and a book are all selected. */
  predicate CanShowText(author: string, work: string, book: string)
  {
    author != "" && work != "" && book != ""
  }

  /** Once the defaults have settled after an author is picked, "show text" is possible exactly when
      the author has a work, the book query for that work succeeds with at least one book, and the
      first book's name is not empty. */
  lemma SettledSelection(author: string, fetch: (string, string) -> Reply<seq<string>>)
    requires author != ""
    ensures var work := DefaultWork(author, Choices(AuthorWorks, author));
      var book := DefaultBook(BooksFor(author, work, fetch(author, work)));
      CanShowText(author, work, book) <==>
        && |Choices(AuthorWorks, author)| > 0 && Choices(AuthorWorks, author)[0] != ""
        && fetch(author, work).Returned? && |fetch(author, work).value| > 0
        && fetch(author, work).value[0] != ""
  {
  }

  // ----------------------------------------------------- annotated lines

  /** A result row of the commentary query: a line id, and a commentary when one references the line. */
  datatype Binding = Binding(line: string, commentary: Option<string>)

  /** An entry of the page's list of annotated lines. A `None` in `commentary` is a `null` the page pushed. */
  datatype LineEntry = LineEntry(line: string, commentary: seq<Option<string>>)

  /** No line id is listed twice. */
  predicate UniqueLines(texts: seq<LineEntry>)
  {
    forall i, j :: 0 <= i < j < |texts| ==> texts[i].line != texts[j].line
  }

  /** Some entry is for line `id`. */
  predicate HasLine(texts: seq<LineEntry>, id: string)
  {
    exists i :: 0 <= i < |texts| && texts[i].line == id
  }

  /** `texts.find(t => t.line === id)`: the position of the first entry for `id`, or -1. */
  function Find(texts: seq<LineEntry>, id: string): (i: int)
    ensures -1 <= i < |texts|
    ensures i >= 0 ==> texts[i].line == id && forall j :: 0 <= j < i ==> texts[j].line != id
    ensures i == -1 <==> !HasLine(texts, id)
  {
    if |texts| == 0 then -1
    else if texts[0].line == id then 0
    else
      var i := Find(texts[1..], id);
      assert forall j :: 1 <= j < |texts| ==> texts[1..][j - 1] == texts[j];
      if i == -1 then -1 else i + 1
  }

  /** The list after one result row: a known line gains one commentary slot at the end (the
      commentary, or null without one); an unknown line is appended with its commentary, or none. */
  function MergeOne(texts: seq<LineEntry>, b: Binding): (r: seq<LineEntry>)
    ensures HasLine(texts, b.line) ==>
      var k := Find(texts, b.line);
      && |r| == |texts|
      && r[k] == LineEntry(b.line, texts[k].commentary + [b.commentary])
      && forall j :: 0 <= j < |texts| && j != k ==> r[j] == texts[j]
    ensures !HasLine(texts, b.line) ==> r == texts + [LineEntry(b.line, if b.commentary.Some? then [b.commentary] else [])]
  {
    var k := Find(texts, b.line);
    if k >= 0 then texts[k := LineEntry(texts[k].line, texts[k].commentary + [b.commentary])]
    else texts + [LineEntry(b.line, if b.commentary.Some? then [b.commentary] else [])]
  }

  /** The list after a sequence of result rows, merged in order: each row adds at most one entry. */
  function MergeAll(texts: seq<LineEntry>, bs: seq<Binding>): (r: seq<LineEntry>)
    ensures |texts| <= |r| <= |texts| + |bs|
  {
    if |bs| == 0 then texts else MergeOne(MergeAll(texts, bs[..|bs| - 1]), bs[|bs| - 1])
  }

  /** Merging keeps line ids unique. */
  lemma MergeOneKeepsLinesUnique(texts: seq<LineEntry>, b: Binding)
    requires UniqueLines(texts)
    ensures UniqueLines(MergeOne(texts, b))
  {
    var r := MergeOne(texts, b);
    if !HasLine(texts, b.line) {
      forall i, j | 0 <= i < j < |r| ensures r[i].line != r[j].line {
        if j == |texts| {
          assert r[i] == texts[i];
        } else {
          assert r[i] == texts[i] && r[j] == texts[j];
        }
      }
    }
  }

  lemma {:induction false} MergeAllKeepsLinesUnique(texts: seq<LineEntry>, bs: seq<Binding>)
    requires UniqueLines(texts)
    ensures UniqueLines(MergeAll(texts, bs))
  {
    if |bs| > 0 {
      MergeAllKeepsLinesUnique(texts, bs[..|bs| - 1]);
      MergeOneKeepsLinesUnique(MergeAll(texts, bs[..|bs| - 1]), bs[|bs| - 1]);
    }
  }

  /** `after` keeps every entry of `before` in place, with the same line and its commentary
      only extended at the end. */
  predicate Extends(before: seq<LineEntry>, after: seq<LineEntry>)
  {
    |before| <= |after|
    && forall i :: 0 <= i < |before| ==>
         after[i].line == before[i].line
         && |before[i].commentary| <= |after[i].commentary|
         && after[i].commentary[..|before[i].commentary|] == before[i].commentary
  }

  lemma ExtendsTransitive(a: seq<LineEntry>, b: seq<LineEntry>, c: seq<LineEntry>)
    requires Extends(a, b) && Extends(b, c)
    ensures Extends(a, c)
  {
    forall i | 0 <= i < |a|
      ensures c[i].commentary[..|a[i].commentary|] == a[i].commentary
    {
      assert c[i].commentary[..|b[i].commentary|][..|a[i].commentary|] == c[i].commentary[..|a[i].commentary|];
    }
  }

  /** Merging never removes or reorders an entry, and never drops or rewrites a commentary slot. */
  lemma {:induction false} MergeAllExtends(texts: seq<LineEntry>, bs: seq<Binding>)
    ensures Extends(texts, MergeAll(texts, bs))
  {
    if |bs| > 0 {
      var mid := MergeAll(texts, bs[..|bs| - 1]);
      MergeAllExtends(texts, bs[..|bs| - 1]);
      var r := MergeOne(mid, bs[|bs| - 1]);
      assert Extends(mid, r) by {
        if HasLine(mid, bs[|bs| - 1].line) {
          var k := Find(mid, bs[|bs| - 1].line);
          assert r[k].commentary[..|mid[k].commentary|] == mid[k].commentary;
        }
      }
      ExtendsTransitive(texts, mid, r);
    }
  }

  /** Merging two batches one after the other is merging them together: results accumulate. */
  lemma {:induction false} MergeAllAppend(texts: seq<LineEntry>, a: seq<Binding>, b: seq<Binding>)
    ensures MergeAll(texts, a + b) == MergeAll(MergeAll(texts, a), b)
  {
    if |b| == 0 {
      assert a + b == a;
    } else {
      assert (a + b)[..|a + b| - 1] == a + b[..|b| - 1];
      assert (a + b)[|a + b| - 1] == b[|b| - 1];
      MergeAllAppend(texts, a, b[..|b| - 1]);
    }
  }

  /** After a merge the lines listed are the lines listed before and the lines of the rows. */
  lemma {:induction false} MergeAllLines(texts: seq<LineEntry>, bs: seq<Binding>, id: string)
    ensures HasLine(MergeAll(texts, bs), id) <==>
      HasLine(texts, id) || exists j :: 0 <= j < |bs| && bs[j].line == id
  {
    if |bs| > 0 {
      var init := bs[..|bs| - 1];
      var last := bs[|bs| - 1];
      var mid := MergeAll(texts, init);
      MergeAllLines(texts, init, id);
      var r := MergeOne(mid, last);
      assert HasLine(r, id) <==> HasLine(mid, id) || last.line == id by {
        if HasLine(mid, id) {
          var i :| 0 <= i < |mid| && mid[i].line == id;
          assert r[i].line == id;
        }
        if last.line == id {
          if HasLine(mid, id) {
          } else {
            assert r[|mid|].line == id;
          }
        }
        if HasLine(r, id) {
          var i :| 0 <= i < |r| && r[i].line == id;
          assert i < |mid| ==> mid[i].line == id || last.line == id;
        }
      }
      assert (exists j :: 0 <= j < |bs| && bs[j].line == id) <==>
        (exists j :: 0 <= j < |init| && init[j].line == id) || last.line == id by {
        assert forall j :: 0 <= j < |init| ==> init[j] == bs[j];
      }
    }
  }

  /** A line id taken from the rendered text is clickable when it is set, an entry exists for it,
      and that entry has at least one commentary slot (a null slot counts). */
  predicate Clickable(texts: seq<LineEntry>, xmlId: Option<string>)
  {
    Truthy(xmlId) && HasLine(texts, xmlId.value) && |texts[Find(texts, xmlId.value)].commentary| > 0
  }

  /** A line that was clickable stays clickable however the list is extended. */
  lemma ExtendsKeepsClickable(before: seq<LineEntry>, after: seq<LineEntry>, xmlId: Option<string>)
    requires Extends(before, after) && Clickable(before, xmlId)
    ensures Clickable(after, xmlId)
    ensures Find(after, xmlId.value) == Find(before, xmlId.value)
    ensures |before[Find(before, xmlId.value)].commentary| <= |after[Find(after, xmlId.value)].commentary|
    ensures after[Find(after, xmlId.value)].commentary[..|before[Find(before, xmlId.value)].commentary|]
      == before[Find(before, xmlId.value)].commentary
  {
    var id := xmlId.value;
    var k := Find(before, id);
    assert after[k].line == id;
    assert HasLine(after, id);
    assert forall j :: 0 <= j < k ==> after[j].line == before[j].line != id;
  }

  /** Once a line is clickable, "show text" can only add to what a click on it fetches: the line
      stays clickable and its earlier commentary slots stay in place. */
  lemma ClickableStaysClickable(texts: seq<LineEntry>, bs: seq<Binding>, xmlId: Option<string>)
    requires Clickable(texts, xmlId)
    ensures Clickable(MergeAll(texts, bs), xmlId)
    ensures var r := MergeAll(texts, bs); var c := texts[Find(texts, xmlId.value)].commentary;
      |c| <= |r[Find(r, xmlId.value)].commentary| && r[Find(r, xmlId.value)].commentary[..|c|] == c
  {
    MergeAllExtends(texts, bs);
    ExtendsKeepsClickable(texts, MergeAll(texts, bs), xmlId);
  }

  /** The commentaries a click fetches: the slots that hold a non-empty value, in order. */
  function FetchTargets(commentary: seq<Option<string>>): (r: seq<string>)
    ensures |r| <= |commentary|
    ensures forall x :: x in r <==> Some(x) in commentary && x != ""
  {
    if |commentary| == 0 then []
    else
      var rest := FetchTargets(commentary[1..]);
      assert forall x :: Some(x) in commentary <==> Some(x) == commentary[0] || Some(x) in commentary[1..] by {
        assert commentary == [commentary[0]] + commentary[1..];
      }
      if Truthy(commentary[0]) then [commentary[0].value] + rest else rest
  }

  /** The fetches for two runs of slots are the fetches for the first, then those for the second:
      one fetch per non-empty slot, in slot order, repeated slots fetched again. */
  lemma {:induction false} FetchTargetsAppend(a: seq<Option<string>>, b: seq<Option<string>>)
    ensures FetchTargets(a + b) == FetchTargets(a) + FetchTargets(b)
  {
    if |a| == 0 {
      assert a + b == b;
    } else {
      assert (a + b)[0] == a[0];
      assert (a + b)[1..] == a[1..] + b;
      FetchTargetsAppend(a[1..], b);
    }
  }

  /** A new line whose one commentary row is shown twice (the list is never reset) holds that
      commentary in two slots, so a click fetches it twice. */
  lemma ShowTwiceFetchesTwice(texts: seq<LineEntry>, id: string, c: string)
    requires id != "" && c != "" && !HasLine(texts, id)
    ensures var once := MergeAll(texts, [Binding(id, Some(c))]);
      var twice := MergeAll(once, [Binding(id, Some(c))]);
      Clickable(twice, Some(id)) && FetchTargets(twice[Find(twice, id)].commentary) == [c, c]
  {
    var b := Binding(id, Some(c));
    assert [b][..0] == [];
    var once := MergeOne(texts, b);
    assert MergeAll(texts, [b]) == once;
    assert once[|texts|].line == id;
    assert HasLine(once, id);
    var twice := MergeOne(once, b);
    assert MergeAll(once, [b]) == twice;
    var k := Find(once, id);
    assert twice[k].commentary == [Some(c), Some(c)];
    assert [Some(c), Some(c)][1..] == [Some(c)];
    assert [Some(c)][1..] == [];
  }

  /** A line that first arrives without commentary and then arrives again without commentary becomes
      clickable, yet a click on it fetches nothing: the first row creates an empty list, the second
      pushes a null slot. */
  lemma RepeatedLineWithoutCommentary(texts: seq<LineEntry>, id: string)
    requires id != "" && !HasLine(texts, id)
    ensures var r := MergeAll(texts, [Binding(id, None), Binding(id, None)]);
      Clickable(r, Some(id)) && FetchTargets(r[Find(r, id)].commentary) == []
  {
    var once := MergeOne(texts, Binding(id, None));
    assert [Binding(id, None), Binding(id, None)][..1] == [Binding(id, None)];
    assert MergeAll(texts, [Binding(id, None)]) == once by {
      assert [Binding(id, None)][..0] == [];
    }
    assert once[|texts|].line == id;
    assert HasLine(once, id);
    var r := MergeOne(once, Binding(id, None));
    assert r[Find(once, id)].commentary == [None];
  }

  /** A line that arrives once without commentary is listed but not clickable. */
  lemma SingleLineWithoutCommentary(texts: seq<LineEntry>, id: string)
    requires !HasLine(texts, id)
    ensures !Clickable(MergeOne(texts, Binding(id, None)), Some(id))
  {
    var r := MergeOne(texts, Binding(id, None));
    assert r[|texts|].line == id;
    assert HasLine(r, id);
  }

  // ---------------------------------------------------------------- URLs

  /** The address pushed to the browser history when a line is clicked. */
  function CommentaryPath(encode: string -> string, author: string, work: string, book: string, xmlId: string): (r: string)
    ensures |r| >= 8 && r[..8] == "/reader/"
    ensures |r| == 11 + |encode(author)| + |encode(work)| + |encode(book)| + |encode(xmlId)|
  {
    "/reader/" + encode(author) + "/" + encode(work) + "/" + encode(book) + "/" + encode(xmlId)
  }

  /** The address copied by "copy URL": the same path under the site's origin. */
  function CopyUrl(origin: string, encode: string -> string, author: string, work: string, book: string, xmlId: string): (r: string)
    ensures |r| >= |origin| && r[..|origin|] == origin
    ensures r[|origin|..] == CommentaryPath(encode, author, work, book, xmlId)
  {
    origin + "/reader/" + encode(author) + "/" + encode(work) + "/" + encode(book) + "/" + encode(xmlId)
  }

  /** With an encoding that never emits '/', the path splits back into its six segments. */
  lemma PathSegments(encode: string -> string, author: string, work: string, book: string, xmlId: string)
    requires forall s :: '/' !in encode(s)
    ensures Split(CommentaryPath(encode, author, work, book, xmlId), '/')
      == ["", "reader", encode(author), encode(work), encode(book), encode(xmlId)]
  {
    var parts := ["", "reader", encode(author), encode(work), encode(book), encode(xmlId)];
    assert Join(parts[4..], "/") == encode(book) + "/" + encode(xmlId);
    assert Join(parts[3..], "/") == encode(work) + "/" + Join(parts[4..], "/") by { assert parts[3..][1..] == parts[4..]; }
    assert Join(parts[2..], "/") == encode(author) + "/" + Join(parts[3..], "/") by { assert parts[2..][1..] == parts[3..]; }
    assert Join(parts[1..], "/") == "reader" + "/" + Join(parts[2..], "/") by { assert parts[1..][1..] == parts[2..]; }
    assert Join(parts, "/") == "" + "/" + Join(parts[1..], "/");
    assert Join(parts, "/") == CommentaryPath(encode, author, work, book, xmlId);
    forall k | 0 <= k < |parts| ensures '/' !in parts[k] {
    }
    SplitJoin(parts, '/');
  }

  /** With an injective encoding that never emits '/', the path identifies the author, the work,
      the book and the line. */
  lemma PathIdentifiesLine(encode: string -> string, a1: string, w1: string, b1: string, x1: string,
                           a2: string, w2: string, b2: string, x2: string)
    requires forall s :: '/' !in encode(s)
    requires forall s, t :: encode(s) == encode(t) ==> s == t
    requires CommentaryPath(encode, a1, w1, b1, x1) == CommentaryPath(encode, a2, w2, b2, x2)
    ensures a1 == a2 && w1 == w2 && b1 == b2 && x1 == x2
  {
    PathSegments(encode, a1, w1, b1, x1);
    PathSegments(encode, a2, w2, b2, x2);
    var s1 := ["", "reader", encode(a1), encode(w1), encode(b1), encode(x1)];
    var s2 := ["", "reader", encode(a2), encode(w2), encode(b2), encode(x2)];
    assert s1 == s2;
    assert s1[2] == s2[2] && s1[3] == s2[3] && s1[4] == s2[4] && s1[5] == s2[5];
  }

  // ----------------------------------------------------- language model

  const GeminiModel: string := "gemini-2.5-flash"
  const TranslateLead: string := "Translate the following text to "
  const SummarizeLead: string := "Briefly summarize the following text in "

  /** The prompt of the translate/summarise helper; any other mode gives an empty prompt. */
  function LlmPrompt(text: string, mode: string, lang: string): (r: string)
    ensures mode == "translate" ==> r == TranslateLead + lang + ": " + text
    ensures mode == "summarize" ==> r == SummarizeLead + lang + ": " + text
    ensures mode != "translate" && mode != "summarize" ==> r == ""
  {
    if mode == "translate" then TranslateLead + lang + ": " + text
    else if mode == "summarize" then SummarizeLead + lang + ": " + text
    else ""
  }

  /** For one mode and one language, different texts give different prompts, each ending with its text. */
  lemma PromptCarriesText(mode: string, lang: string, t1: string, t2: string)
    requires mode == "translate" || mode == "summarize"
    ensures |LlmPrompt(t1, mode, lang)| >= |t1|
    ensures LlmPrompt(t1, mode, lang)[|LlmPrompt(t1, mode, lang)| - |t1|..] == t1
    ensures t1 != t2 ==> LlmPrompt(t1, mode, lang) != LlmPrompt(t2, mode, lang)
  {
    var lead := if mode == "translate" then TranslateLead else SummarizeLead;
    var p1, p2 := LlmPrompt(t1, mode, lang), LlmPrompt(t2, mode, lang);
    assert p1 == (lead + lang + ": ") + t1;
    assert p2 == (lead + lang + ": ") + t2;
    assert p1[|lead + lang + ": "|..] == t1;
    assert p2[|lead + lang + ": "|..] == t2;
  }

  /** For one text and one language, the two modes give different prompts. */
  lemma PromptsDifferByMode(text: string, lang: string)
    ensures LlmPrompt(text, "translate", lang) != LlmPrompt(text, "summarize", lang)
  {
    assert |TranslateLead| == 32 && |SummarizeLead| == 40;
  }

  /** What the helper returns for the model's reply: its text when there is one, else '' (a failed
      call, a missing reply and an empty text all end in the error branch). */
  function LlmResult(reply: Reply<Option<string>>): (r: string)
    ensures reply.Returned? && Truthy(reply.value) ==> r == reply.value.value
    ensures r == "" <==> reply.Threw? || !Truthy(reply.value)
  {
    match reply
    case Threw => ""
    case Returned(text) => StringOr(text, "")
  }

  /** The helper: the model is asked with the prompt, and its answer or '' comes back. */
  function LlmProcess(generate: (string, string) -> Reply<Option<string>>, text: string, mode: string, lang: string): (r: string)
    ensures var reply := generate(GeminiModel, LlmPrompt(text, mode, lang));
      && (r != "" <==> reply.Returned? && Truthy(reply.value))
      && (r != "" ==> r == reply.value.value)
  {
    LlmResult(generate(GeminiModel, LlmPrompt(text, mode, lang)))
  }

  // ------------------------------------------------------------- the page

  /** The page's selection state and its list of annotated lines. */
  class ReaderState {
    var genre: string
    var author: string
    var work: string
    var book: string
    var availableBooks: seq<string>
    var texts: seq<LineEntry>

    /** The list of annotated lines names each line once. */
    ghost predicate Valid()
      reads this
    {
      UniqueLines(texts)
    }

    constructor ()
      ensures genre == "" && author == "" && work == "" && book == ""
      ensures availableBooks == [] && texts == []
      ensures Valid()
    {
      genre, author, work, book := "", "", "", "";
      availableBooks := [];
      texts := [];
    }

    /** The work effect: runs when the author or the offered works change. */
    method WorkEffect()
      modifies this
      ensures work == DefaultWork(author, Choices(AuthorWorks, author))
      ensures work != "" ==> work in Choices(AuthorWorks, author)
      ensures genre == old(genre) && author == old(author) && book == old(book)
      ensures availableBooks == old(availableBooks) && texts == old(texts)
    {
      var works := Choices(AuthorWorks, author);
      if author != "" && |works| > 0 {
        work := works[0];
      } else {
        work := "";
      }
    }

    /** The books effect: runs when the author or the work change; `fetched` is the query's outcome. */
    method BooksEffect(fetched: Reply<seq<string>>)
      modifies this
      ensures availableBooks == BooksFor(author, work, fetched)
      ensures genre == old(genre) && author == old(author) && work == old(work) && book == old(book)
      ensures texts == old(texts)
    {
      if author == "" || work == "" {
        availableBooks := [];
        return;
      }
      match fetched
      case Returned(books) => availableBooks := books;
      case Threw => availableBooks := [];
    }

    /** The book effect: runs when the offered books change. */
    method BookEffect()
      modifies this
      ensures book == DefaultBook(availableBooks)
      ensures book != "" ==> book in availableBooks
      ensures genre == old(genre) && author == old(author) && work == old(work)
      ensures availableBooks == old(availableBooks) && texts == old(texts)
    {
      if |availableBooks| > 0 {
        book := availableBooks[0];
      } else {
        book := "";
      }
    }

    /** Picking an author, and the three effects that follow it in turn. */
    method PickAuthor(a: string, fetch: (string, string) -> Reply<seq<string>>)
      modifies this
      ensures author == a
      ensures work == DefaultWork(a, Choices(AuthorWorks, a))
      ensures availableBooks == BooksFor(a, work, fetch(a, work))
      ensures book == DefaultBook(availableBooks)
      ensures genre == old(genre) && texts == old(texts)
    {
      author := a;
      WorkEffect();
      BooksEffect(fetch(author, work));
      BookEffect();
    }

    /** Folding result rows into the list in place, one row at a time. */
    method MergeBindings(bs: seq<Binding>)
      requires Valid()
      modifies this
      ensures Valid()
      ensures texts == MergeAll(old(texts), bs)
      ensures genre == old(genre) && author == old(author) && work == old(work) && book == old(book)
      ensures availableBooks == old(availableBooks)
    {
      for i := 0 to |bs|
        invariant texts == MergeAll(old(texts), bs[..i])
        invariant genre == old(genre) && author == old(author) && work == old(work) && book == old(book)
        invariant availableBooks == old(availableBooks)
      {
        var b := bs[i];
        var k := Find(texts, b.line);
        if k >= 0 {
          texts := texts[k := LineEntry(texts[k].line, texts[k].commentary + [b.commentary])];
        } else if b.commentary.Some? {
          texts := texts + [LineEntry(b.line, [b.commentary])];
        } else {
          texts := texts + [LineEntry(b.line, [])];
        }
        assert bs[..i + 1][..i] == bs[..i];
      }
      assert bs[..|bs|] == bs;
      MergeAllKeepsLinesUnique(old(texts), bs);
    }

    /** "Show text": with an author, a work and a book selected, the rows the commentary query
        returned are merged into the list (a failed query changes nothing); otherwise the user is
        alerted and nothing changes. */
    method ShowText(fetched: Reply<seq<Binding>>) returns (alerted: bool)
      requires Valid()
      modifies this
      ensures Valid()
      ensures alerted <==> !CanShowText(author, work, book)
      ensures texts == if !alerted && fetched.Returned? then MergeAll(old(texts), fetched.value) else old(texts)
      ensures genre == old(genre) && author == old(author) && work == old(work) && book == old(book)
      ensures availableBooks == old(availableBooks)
    {
      if author != "" && work != "" && book != "" {
        if fetched.Returned? {
          MergeBindings(fetched.value);
        }
        return false;
      }
      return true;
    }
  }
}
