/**
 * The chat page: the genre and author filters, the author selection that
 * follows the genre selection, the message log that a send extends, and the
 * per-key show/hide toggles of the reference panels.
 */
module ChatPage {
  import opened Values
  import opened Text
  import opened Seqs
  import opened Tables
  import ChatRoute

  // ------------------------------------------------------ author filter

  /** The page's genre → authors table, in declaration order. */
  const GenreAuthors: Table := [
    ("PhilGreek", ["Plato", "Aristotle"]),
    ("PhilRoma", ["Cicero"]),
    ("LitGreek", ["Homer"])
  ]

  /** The author lists of the selected genres, an unknown genre giving []. */
  function GenreLists(t: Table, genre: seq<string>): (r: seq<seq<string>>)
    ensures |r| == |genre| && forall i :: 0 <= i < |genre| ==> r[i] == Lookup(t, genre[i])
  {
    seq(|genre|, i requires 0 <= i < |genre| => Lookup(t, genre[i]))
  }

  /** Whether the genre selection means "every genre": "All" is selected, or nothing is. */
  predicate EveryGenre(genre: seq<string>)
  {
    "All" in genre || |genre| == 0
  }

  /** The authors offered for a genre selection. */
  function AvailableAuthors(t: Table, genre: seq<string>): (r: seq<string>)
    ensures NoDup(r)
    ensures EveryGenre(genre) ==> r == AllValues(t)
    ensures !EveryGenre(genre) ==>
      forall a :: a in r <==> exists i :: 0 <= i < |genre| && a in Lookup(t, genre[i])
  {
    if "All" in genre then AllValues(t)
    else if |genre| == 0 then AllValues(t)
    else
      var r := Dedup(Flatten(GenreLists(t, genre)));
      assert forall a :: a in r <==> exists i :: 0 <= i < |genre| && a in GenreLists(t, genre)[i];
      r
  }

  /** For a specific selection the authors stand in the order in which the selected genres,
      taken in selection order, first list them. */
  lemma AvailableAuthorsOrder(t: Table, genre: seq<string>)
    requires !EveryGenre(genre)
    ensures var all := Flatten(GenreLists(t, genre));
      var r := AvailableAuthors(t, genre);
      forall i, j :: 0 <= i < j < |r| ==> FirstIndex(all, r[i]) < FirstIndex(all, r[j])
  {
    DedupKeepsFirstOccurrenceOrder(Flatten(GenreLists(t, genre)));
  }

  /** Selecting, in addition, a genre the table does not know changes nothing. */
  lemma UnknownGenreContributesNothing(t: Table, genre: seq<string>, g: string)
    requires !EveryGenre(genre) && g != "All" && !HasKey(t, g)
    ensures AvailableAuthors(t, genre + [g]) == AvailableAuthors(t, genre)
  {
    var lists, before := GenreLists(t, genre + [g]), GenreLists(t, genre);
    assert lists[..|lists| - 1] == before;
    assert lists[|lists| - 1] == [];
    assert Flatten(lists) == Flatten(before) + [];
    assert Flatten(before) + [] == Flatten(before);
    assert "All" !in genre + [g];
  }

  /** With no genre selected the page offers all four authors, genre by genre. */
  lemma InitialAuthors()
    ensures AvailableAuthors(GenreAuthors, []) == ["Plato", "Aristotle", "Cicero", "Homer"]
  {
    var vs := Tables.Values(GenreAuthors);
    assert vs == [["Plato", "Aristotle"], ["Cicero"], ["Homer"]];
    assert vs[..2][..1] == [["Plato", "Aristotle"]];
    assert Flatten(vs[..2][..1][..0]) == [];
    assert Flatten(vs[..2][..1]) == ["Plato", "Aristotle"];
    assert Flatten(vs[..2]) == ["Plato", "Aristotle", "Cicero"];
    var f := Flatten(vs);
    assert f == ["Plato", "Aristotle", "Cicero", "Homer"];
    DedupOfDistinct(f);
  }

  // ------------------------------------------------ author reconciliation

  /** The author selection after the genre selection changes: every author of the genres when
      "All" is selected; otherwise the current selection restricted to the offered authors,
      in its own order, or every offered author if none survives. */
  function Reconcile(genre: seq<string>, available: seq<string>, current: seq<string>): (r: seq<string>)
    ensures forall a :: a in r ==> a in available
    ensures NoDup(available) && NoDup(current) ==> NoDup(r)
    ensures "All" in genre ==> r == available
    ensures "All" !in genre && (exists a :: a in current && a in available) ==>
      forall a :: a in r <==> a in current && a in available
    ensures "All" !in genre && (forall a :: a in current ==> a !in available) ==> r == available
  {
    if "All" in genre then available
    else
      var survivors := Keep(current, available);
      assert NoDup(current) ==> NoDup(survivors) by {
        if NoDup(current) { KeepNoDup(current, available); }
      }
      if |survivors| == 0 then
        assert forall a :: a !in survivors;
        available
      else
        assert survivors[0] in current && survivors[0] in available by { assert survivors[0] in survivors; }
        survivors
  }

  /** Reconciling an already reconciled selection changes nothing. */
  lemma ReconcileIdempotent(genre: seq<string>, available: seq<string>, current: seq<string>)
    ensures Reconcile(genre, available, Reconcile(genre, available, current)) == Reconcile(genre, available, current)
  {
    var r := Reconcile(genre, available, current);
    if "All" !in genre {
      KeepAll(r, available);
    }
  }

  /** Authors kept through a reconciliation keep their relative order: restricting a selection
      made of two parts restricts each part. */
  lemma ReconcileKeepsOrder(genre: seq<string>, available: seq<string>, before: seq<string>, after: seq<string>)
    requires "All" !in genre
    requires exists a :: a in before + after && a in available
    ensures Reconcile(genre, available, before + after) == Keep(before, available) + Keep(after, available)
  {
    KeepAppend(before, after, available);
    var a :| a in before + after && a in available;
    assert a in Keep(before + after, available);
  }

  // ------------------------------------------------------ author picker

  /** An option of the author picker. */
  datatype AuthorOption = AuthorOption(value: string, labelText: string)

  /** `availableAuthors.map(a => ({ value: a, label: a }))`. */
  function AuthorOptions(available: seq<string>): (r: seq<AuthorOption>)
    ensures |r| == |available|
    ensures forall i :: 0 <= i < |r| ==> r[i].value == available[i] && r[i].labelText == available[i]
  {
    seq(|available|, i requires 0 <= i < |available| => AuthorOption(available[i], available[i]))
  }

  /** The new author selection from the picker: none for a cleared picker, else the option values in order. */
  function SelectedAuthors(selected: Option<seq<AuthorOption>>): (r: seq<string>)
    ensures selected.None? ==> r == []
    ensures selected.Some? ==>
      |r| == |selected.value| && forall i :: 0 <= i < |r| ==> r[i] == selected.value[i].value
  {
    match selected
    case None => []
    case Some(opts) => seq(|opts|, i requires 0 <= i < |opts| => opts[i].value)
  }

  /** Picking options offered for some authors selects exactly those authors, in the same order. */
  lemma PickOffered(authors: seq<string>)
    ensures SelectedAuthors(Some(AuthorOptions(authors))) == authors
  {
  }

  // -------------------------------------------------------------- toggles

  /** A show/hide flag of a map of flags: an absent key reads as hidden. */
  predicate IsOn<K>(m: map<K, bool>, k: K)
  {
    k in m && m[k]
  }

  /** `{ ...prev, [k]: !prev[k] }`. */
  function Toggled<K(!new)>(m: map<K, bool>, k: K): (r: map<K, bool>)
    ensures IsOn(r, k) == !IsOn(m, k)
    ensures forall j :: j != k ==> (j in r <==> j in m) && (j in m ==> r[j] == m[j])
    ensures r.Keys == m.Keys + {k}
  {
    m[k := !IsOn(m, k)]
  }

  /** Toggling the same key twice shows and hides exactly what was shown and hidden before. */
  lemma ToggleTwice<K(!new)>(m: map<K, bool>, k: K, j: K)
    ensures IsOn(Toggled(Toggled(m, k), k), j) == IsOn(m, j)
  {
  }

  /** The decimal text of a number. */
  function NatText(n: nat): (r: string)
    ensures |r| >= 1
    ensures forall i :: 0 <= i < |r| ==> '0' <= r[i] <= '9'
  {
    if n < 10 then [Digit(n)] else NatText(n / 10) + [Digit(n % 10)]
  }

  function Digit(d: nat): (c: char)
    requires d < 10
    ensures '0' <= c <= '9' && c as int - '0' as int == d
  {
    (d + '0' as int) as char
  }

  /** The number a string of decimal digits denotes. */
  function DecimalValue(s: string): nat
    requires forall i :: 0 <= i < |s| ==> '0' <= s[i] <= '9'
  {
    if |s| == 0 then 0
    else DecimalValue(s[..|s| - 1]) * 10 + (s[|s| - 1] as int - '0' as int)
  }

  /** Reading back the decimal text of a number gives the number. */
  lemma {:induction false} DecimalRoundTrip(n: nat)
    ensures DecimalValue(NatText(n)) == n
  {
    if n >= 10 {
      DecimalRoundTrip(n / 10);
      var s := NatText(n);
      assert s[..|s| - 1] == NatText(n / 10);
    }
  }

  /** The key of a reference panel: `${idx}-${docIdx}`. */
  function DocKey(idx: nat, docIdx: nat): string
  {
    NatText(idx) + "-" + NatText(docIdx)
  }

  /** Different (message, document) positions have different keys, so toggling one panel never
      shows or hides another. */
  lemma DocKeysDistinct(i1: nat, d1: nat, i2: nat, d2: nat)
    requires (i1, d1) != (i2, d2)
    ensures DocKey(i1, d1) != DocKey(i2, d2)
  {
    assert '-' !in NatText(i1) && '-' !in NatText(i2);
    assert '-' !in NatText(d1) && '-' !in NatText(d2);
    SplitAtFirst(NatText(i1), '-', NatText(d1));
    SplitAtFirst(NatText(i2), '-', NatText(d2));
    if DocKey(i1, d1) == DocKey(i2, d2) {
      var parts1 := [NatText(i1)] + Split(NatText(d1), '-');
      var parts2 := [NatText(i2)] + Split(NatText(d2), '-');
      assert parts1 == parts2;
      assert NatText(i1) == parts1[0] == parts2[0] == NatText(i2);
      assert Split(NatText(d1), '-') == parts1[1..] == parts2[1..] == Split(NatText(d2), '-');
      assert Split(NatText(d1), '-') == [NatText(d1)];
      assert Split(NatText(d2), '-') == [NatText(d2)];
      DecimalRoundTrip(i1);
      DecimalRoundTrip(i2);
      assert NatText(d1) == NatText(d2);
      DecimalRoundTrip(d1);
      DecimalRoundTrip(d2);
    }
  }

  // ---------------------------------------------------------- the page

  /** An entry of the message log; `text` is missing when the reply carried no answer. */
  datatype Message = Message(role: ChatRoute.Role, text: Option<string>, contextDocs: Option<seq<ChatRoute.DocInfo>>)

  /** What the page can read from the route's reply: a JSON body with its `answer` and `docs`
      fields, each of which may be missing, or a body that does not parse (the request failed). */
  datatype Reply = Json(answer: Option<string>, docs: Option<seq<ChatRoute.DocInfo>>) | NotJson

  /** The reply the page reads for each response of the route: an error body has no answer and
      no documents; an uncaught exception in the route gives no JSON at all. */
  function ReplyFor(resp: ChatRoute.Response): (r: Reply)
    ensures resp.Crashed? <==> r.NotJson?
    ensures resp.Answered? ==> r == Json(Some(resp.answer), Some(resp.docs))
    ensures resp.Rejected? ==> r == Json(None, None)
  {
    match resp
    case Rejected(_, _) => Json(None, None)
    case Crashed => NotJson
    case Answered(answer, docs, _) => Json(Some(answer), Some(docs))
  }

  /** The log as a send leaves it: every assistant entry directly follows a user entry, and every
      user entry holds a question that is not blank. */
  predicate WellFormedLog(log: seq<Message>)
  {
    forall i :: 0 <= i < |log| ==> WellPlaced(log, i)
  }

  predicate WellPlaced(log: seq<Message>, i: int)
    requires 0 <= i < |log|
  {
    match log[i].role
    case User => log[i].text.Some? && Trim(log[i].text.value) != ""
    case Assistant => i > 0 && log[i - 1].role == ChatRoute.User
    case System => false
  }

  /** The log after a send of `input` answered by `reply`, or None when the input is blank and
      the send does nothing. */
  function LogAfterSend(log: seq<Message>, input: string, reply: Reply): (r: Option<seq<Message>>)
    ensures r.None? <==> forall k :: 0 <= k < |input| ==> IsJsSpace(input[k])
    ensures r.Some? ==>
      |log| < |r.value| <= |log| + 2 && r.value[..|log|] == log
      && r.value[|log|] == Message(ChatRoute.User, Some(input), None)
    ensures r.Some? && reply.NotJson? ==> |r.value| == |log| + 1
    ensures r.Some? && reply.Json? ==> |r.value| == |log| + 2
    ensures r.Some? && reply.Json? ==>
      r.value[|r.value| - 1] == Message(ChatRoute.Assistant, reply.answer, Some(reply.docs.OrElse([])))
  {
    BlankIffAllSpace(input);
    if Trim(input) == "" then None
    else
      var question := Message(ChatRoute.User, Some(input), None);
      match reply
      case NotJson => Some(log + [question])
      case Json(answer, docs) => Some(log + [question] + [Message(ChatRoute.Assistant, answer, Some(docs.OrElse([])))])
  }

  /** A send, taken as one step from submit to reply, keeps the log well formed. */
  lemma SendKeepsLogWellFormed(log: seq<Message>, input: string, reply: Reply)
    requires WellFormedLog(log)
    ensures var r := LogAfterSend(log, input, reply);
      r.Some? ==> WellFormedLog(r.value)
  {
    var question := Message(ChatRoute.User, Some(input), None);
    if LogAfterSend(log, input, reply).Some? {
      if reply.NotJson? {
        LogExtended(log, question, []);
        assert log + [question] + [] == log + [question];
      } else {
        LogExtended(log, question, [Message(ChatRoute.Assistant, reply.answer, Some(reply.docs.OrElse([])))]);
      }
    }
  }

  /** A question followed by at most one assistant entry keeps a log well formed. */
  lemma LogExtended(log: seq<Message>, question: Message, answer: seq<Message>)
    requires WellFormedLog(log)
    requires question.role == ChatRoute.User && question.text.Some? && Trim(question.text.value) != ""
    requires |answer| <= 1 && forall k :: 0 <= k < |answer| ==> answer[k].role == ChatRoute.Assistant
    ensures WellFormedLog(log + [question] + answer)
  {
    var r := log + [question] + answer;
    forall i | 0 <= i < |r| ensures WellPlaced(r, i) {
      if i < |log| {
        assert WellPlaced(log, i);
        assert r[i] == log[i];
        assert i > 0 ==> r[i - 1] == log[i - 1];
      } else if i == |log| {
        assert r[i] == question;
      } else {
        assert r[i] == answer[0] && r[i - 1] == question;
      }
    }
  }

  /** The page's state. */
  class ChatPageState {
    var input: string
    var messages: seq<Message>
    var mode: string
    var genre: seq<string>
    var model: seq<string>
    var author: seq<string>
    var contextCount: int
    var expandedDocs: map<string, bool>
    var expandedContexts: map<int, bool>
    var mounted: bool

    /** The message log is well formed: each assistant message answers the user message before it. */
    ghost predicate Valid()
      reads this
    {
      WellFormedLog(messages)
    }

    /** The initial state of the page. */
    constructor ()
      ensures input == "" && messages == [] && mode == "qa" && genre == [] && model == ["gpt-4.1"]
      ensures author == [] && contextCount == 5 && expandedDocs == map[] && expandedContexts == map[]
      ensures !mounted
      ensures Valid()
    {
      input := "";
      messages := [];
      mode := "qa";
      genre := [];
      model := ["gpt-4.1"];
      author := [];
      contextCount := 5;
      expandedDocs := map[];
      expandedContexts := map[];
      mounted := false;
    }

    /** The mount effect. */
    method Mount()
      requires Valid()
      modifies this
      ensures Valid()
      ensures mounted
      ensures input == old(input) && messages == old(messages) && genre == old(genre) && author == old(author)
      ensures expandedDocs == old(expandedDocs) && expandedContexts == old(expandedContexts)
      ensures mode == old(mode) && model == old(model) && contextCount == old(contextCount)
    {
      mounted := true;
    }

    /** The reconciliation effect, which runs once the page is mounted. */
    method GenreEffect()
      requires Valid()
      modifies this
      ensures Valid()
      ensures mounted ==> author == Reconcile(genre, AvailableAuthors(GenreAuthors, genre), old(author))
      ensures !mounted ==> author == old(author)
      ensures forall a :: mounted && a in author ==> a in AvailableAuthors(GenreAuthors, genre)
      ensures input == old(input) && messages == old(messages) && genre == old(genre) && mounted == old(mounted)
      ensures expandedDocs == old(expandedDocs) && expandedContexts == old(expandedContexts)
      ensures mode == old(mode) && model == old(model) && contextCount == old(contextCount)
    {
      if mounted {
        var available := AvailableAuthors(GenreAuthors, genre);
        if "All" in genre {
          author := available;
          return;
        }
        var survivors := Keep(author, available);
        if |survivors| == 0 {
          author := available;
        } else {
          author := survivors;
        }
      }
    }

    /** A change of the genre picker, followed by the reconciliation effect it triggers. */
    method SelectGenres(selected: seq<string>)
      requires Valid()
      modifies this
      ensures Valid()
      ensures genre == selected
      ensures mounted ==> author == Reconcile(selected, AvailableAuthors(GenreAuthors, selected), old(author))
      ensures !mounted ==> author == old(author)
      ensures input == old(input) && messages == old(messages) && mounted == old(mounted)
      ensures expandedDocs == old(expandedDocs) && expandedContexts == old(expandedContexts)
      ensures mode == old(mode) && model == old(model) && contextCount == old(contextCount)
    {
      genre := selected;
      GenreEffect();
    }

    /** A change of the author picker. */
    method ChangeAuthors(selected: Option<seq<AuthorOption>>)
      requires Valid()
      modifies this
      ensures Valid()
      ensures author == SelectedAuthors(selected)
      ensures input == old(input) && messages == old(messages) && genre == old(genre) && mounted == old(mounted)
      ensures expandedDocs == old(expandedDocs) && expandedContexts == old(expandedContexts)
      ensures mode == old(mode) && model == old(model) && contextCount == old(contextCount)
    {
      author := SelectedAuthors(selected);
    }

    /** Typing into the question field. */
    method Type(text: string)
      requires Valid()
      modifies this
      ensures Valid()
      ensures input == text
      ensures messages == old(messages) && genre == old(genre) && author == old(author) && mounted == old(mounted)
      ensures expandedDocs == old(expandedDocs) && expandedContexts == old(expandedContexts)
      ensures mode == old(mode) && model == old(model) && contextCount == old(contextCount)
    {
      input := text;
    }

    /** Submitting the form. A blank question changes nothing. Otherwise the question is logged;
        when the reply parses, the answer and its documents are logged and the field is cleared,
        and when it does not, the send stops there. Returns whether a request was sent. */
    method Send(reply: Reply) returns (sent: bool)
      requires Valid()
      modifies this
      ensures Valid()
      ensures sent <==> LogAfterSend(old(messages), old(input), reply).Some?
      ensures messages == LogAfterSend(old(messages), old(input), reply).OrElse(old(messages))
      ensures input == if sent && reply.Json? then "" else old(input)
      ensures genre == old(genre) && author == old(author) && mounted == old(mounted)
      ensures expandedDocs == old(expandedDocs) && expandedContexts == old(expandedContexts)
      ensures mode == old(mode) && model == old(model) && contextCount == old(contextCount)
    {
      ghost var after := LogAfterSend(messages, input, reply);
      SendKeepsLogWellFormed(messages, input, reply);
      if Trim(input) == "" {
        assert after.None?;
        return false;
      }
      messages := messages + [Message(ChatRoute.User, Some(input), None)];
      if reply.NotJson? {
        assert after == Some(messages);
        return true;
      }
      messages := messages + [Message(ChatRoute.Assistant, reply.answer, Some(reply.docs.OrElse([])))];
      assert after == Some(messages);
      input := "";
      return true;
    }

    /** Showing or hiding the full text of one reference. */
    method ToggleDoc(key: string)
      requires Valid()
      modifies this
      ensures Valid()
      ensures expandedDocs == Toggled(old(expandedDocs), key)
      ensures input == old(input) && messages == old(messages) && genre == old(genre) && author == old(author)
      ensures expandedContexts == old(expandedContexts) && mounted == old(mounted)
      ensures mode == old(mode) && model == old(model) && contextCount == old(contextCount)
    {
      expandedDocs := expandedDocs[key := !(key in expandedDocs && expandedDocs[key])];
    }

    /** Showing or hiding the reference list of one message. */
    method ToggleContext(idx: int)
      requires Valid()
      modifies this
      ensures Valid()
      ensures expandedContexts == Toggled(old(expandedContexts), idx)
      ensures input == old(input) && messages == old(messages) && genre == old(genre) && author == old(author)
      ensures expandedDocs == old(expandedDocs) && mounted == old(mounted)
      ensures mode == old(mode) && model == old(model) && contextCount == old(contextCount)
    {
      expandedContexts := expandedContexts[idx := !(idx in expandedContexts && expandedContexts[idx])];
    }
  }

  /** A send whose request the route answers logs the route's answer and its documents. */
  lemma SendLogsRouteAnswer(log: seq<Message>, input: string, resp: ChatRoute.Response)
    requires resp.Answered?
    requires exists k :: 0 <= k < |input| && !IsJsSpace(input[k])
    ensures var r := LogAfterSend(log, input, ReplyFor(resp));
      r.Some? && r.value == log + [Message(ChatRoute.User, Some(input), None),
                                    Message(ChatRoute.Assistant, Some(resp.answer), Some(resp.docs))]
  {
    BlankIffAllSpace(input);
  }

  /** A send the route rejects logs the question and an assistant entry without text or documents. */
  lemma SendLogsRejection(log: seq<Message>, input: string, resp: ChatRoute.Response)
    requires resp.Rejected?
    requires exists k :: 0 <= k < |input| && !IsJsSpace(input[k])
    ensures var r := LogAfterSend(log, input, ReplyFor(resp));
      r.Some? && r.value == log + [Message(ChatRoute.User, Some(input), None),
                                    Message(ChatRoute.Assistant, None, Some([]))]
  {
    BlankIffAllSpace(input);
  }
}
