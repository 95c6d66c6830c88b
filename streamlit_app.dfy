/** The text of DEFAULT_PROMPT in streamlit_app.py, cut at its two
    placeholders. */
module PromptTemplate {
  /** The template text before its [CONTEXT] placeholder. The literals
      join into exactly the text of DEFAULT_PROMPT at streamlit_app.py:12;
      they are cut into short pieces only so that the lemmas below can
      check them for '[' a few pieces at a time. */
  const PromptHead: string :=
    "Use the following context" + " to answer the user query." + " If the user query is a "
    + "question, provide an " + "answer using the context." + " If the user query is a "
    + "statement or a phrase, " + "provide the best response" + " using the context."
    + "\n\nContext:\n\n"

  /** The text between the two placeholders, and after the second. */
  const QueryLabel: string := "\n\nQuery: "
  const ResponseLabel: string := "\n\nResponse:"

  /** The two placeholders format_prompt fills in. */
  const ContextMark: string := "[CONTEXT]"
  const QueryMark: string := "[QUERY]"

  /** The content of DEFAULT_PROMPT's only message. */
  const DefaultPromptText: string := PromptHead + ContextMark + QueryLabel + QueryMark + ResponseLabel

  /** No piece of the head holds a '['; checked three pieces at a time to
      keep each proof small. */
  lemma {:induction false} FirstPiecesPlain()
    ensures '[' !in "Use the following context"
    ensures '[' !in " to answer the user query."
    ensures '[' !in " If the user query is a "
  {
  }

  lemma {:induction false} MiddlePiecesPlain()
    ensures '[' !in "question, provide an "
    ensures '[' !in "answer using the context."
    ensures '[' !in "statement or a phrase, "
  {
  }

  lemma {:induction false} LastPiecesPlain()
    ensures '[' !in "provide the best response"
    ensures '[' !in " using the context."
    ensures '[' !in "\n\nContext:\n\n"
  {
  }

  /** The facts about the placeholders and labels the substitution proofs
      use: both placeholders open with '[' and differ at their second
      character, and no label holds a '['. */
  lemma {:induction false} MarksAndLabels()
    ensures |ContextMark| >= 2 && |QueryMark| >= 2
    ensures ContextMark[0] == QueryMark[0] == '[' && ContextMark[1] != QueryMark[1]
    ensures '[' !in ContextMark[1..] && '[' !in QueryMark[1..]
    ensures '[' !in QueryLabel && '[' !in ResponseLabel
    ensures QueryLabel != [] && QueryLabel[0] !in QueryMark[1..]
  {
    assert ContextMark[1..] == "CONTEXT]" && QueryMark[1..] == "QUERY]";
  }

  /** The template head holds no '[', so no substitution starts inside it. */
  lemma {:induction false} PromptHeadPlain()
    ensures '[' !in PromptHead
  {
    FirstPiecesPlain();
    MiddlePiecesPlain();
    LastPiecesPlain();
  }
}

/** The query side of streamlit_app.py: the search request built for a
    user query, the projection of the index's matches into result tuples,
    and the chat prompt assembled from those results and a template. */
module StreamlitApp {
  import opened Wrappers
  import opened PyStrings
  import opened EmbedData
  import opened UploadVectors
  import opened PromptTemplate

  // ================================================================ query_index

  /** The default of query_index's num_results. */
  const DefaultNumResults := 5

  /** The equality filter on the stored episode title. */
  datatype Filter = TitleEquals(title: string)

  /** The arguments of index.query. */
  datatype QueryRequest = QueryRequest(
    vector: Vector,
    topK: int,
    includeMetadata: bool,
    filter: Option<Filter>)

  /** One match returned by the index, with the metadata stored at upload. */
  datatype Match = Match(id: string, metadata: map<Field, string>)

  /** One result row: (episode_number, episode_title, text). */
  type Result3 = (string, string, string)

  /** The filter: only a truthy title (given and non-empty) restricts the
      search. */
  function MetadataFilter(episodeTitle: Option<string>): (f: Option<Filter>)
    ensures f.Some? <==> episodeTitle.Some? && episodeTitle.value != ""
    ensures f.Some? ==> f.value.title == episodeTitle.value
  {
    if episodeTitle.Some? && episodeTitle.value != "" then Some(TitleEquals(episodeTitle.value)) else None
  }

  /** The index's reading of a filter: no filter admits every match; an
      equality filter admits the matches whose stored title equals it. */
  predicate Admits(f: Option<Filter>, m: Match) {
    f.None? || (EpisodeTitle in m.metadata && m.metadata[EpisodeTitle] == f.value.title)
  }

  /** A search restricted to a title admits exactly the uploaded segments of
      the episode with that title; without a truthy title, every segment. */
  lemma {:induction false} FilterSelectsEpisode(episodeTitle: Option<string>, s: Segment, id: string)
    ensures var f := MetadataFilter(episodeTitle);
      var m := Match(id, Metadata(s, MetadataFields));
      && (f.None? ==> Admits(f, m))
      && (f.Some? ==> (Admits(f, m) <==> s.episodeTitle == episodeTitle.value))
  {
    StandardMetadata(s);
  }

  /** The request query_index sends: the query's embedding, top_k =
      num_results, metadata included, the optional title filter. */
  function Request(query: string, episodeTitle: Option<string>, numResults: int,
                   embed: string -> Vector): QueryRequest
  {
    QueryRequest(embed(query), numResults, true, MetadataFilter(episodeTitle))
  }

  /** A match's stored episode number, title and text, as a tuple;
      a missing key raises KeyError. */
  function ProjectMatch(m: Match): Result<Result3> {
    if EpisodeNumber in m.metadata && EpisodeTitle in m.metadata && Text in m.metadata then
      Ok((m.metadata[EpisodeNumber], m.metadata[EpisodeTitle], m.metadata[Text]))
    else Err(KeyError)
  }

  /** Every match projected, in the index's order; the first failing match
      stops the projection. */
  function ProjectMatches(ms: seq<Match>): (r: Result<seq<Result3>>)
    ensures r.Ok? ==> |r.value| == |ms|
    ensures r.Err? ==> r.error == KeyError
  {
    if ms == [] then Ok([])
    else
      var head :- ProjectMatch(ms[0]);
      var rest :- ProjectMatches(ms[1..]);
      Ok([head] + rest)
  }

  /** query_index, with the embedding model and the index passed in: the
      index answers a request with its matches. */
  function QueryIndex(query: string, episodeTitle: Option<string>, numResults: int,
                      embed: string -> Vector, search: QueryRequest -> seq<Match>): Result<seq<Result3>>
  {
    ProjectMatches(search(Request(query, episodeTitle, numResults, embed)))
  }

  /** The projection succeeds exactly when every match carries the three
      keys, and then yields one tuple per match, in order. */
  lemma {:induction false} ProjectedInOrder(ms: seq<Match>)
    ensures ProjectMatches(ms).Ok? <==> forall k :: 0 <= k < |ms| ==> ProjectMatch(ms[k]).Ok?
    ensures ProjectMatches(ms).Ok? ==>
      forall k :: 0 <= k < |ms| ==> ProjectMatches(ms).value[k] == ProjectMatch(ms[k]).value
  {
    if ms != [] {
      ProjectedInOrder(ms[1..]);
      assert forall k :: 1 <= k < |ms| ==> ms[k] == ms[1..][k - 1];
    }
  }

  /** A match carrying an uploaded segment's metadata projects back to that
      segment's number, title and text. */
  lemma {:induction false} UploadedMatchRoundTrip(s: Segment, id: string)
    ensures ProjectMatch(Match(id, Metadata(s, MetadataFields))) ==
      Ok((s.episodeNumber, s.episodeTitle, s.text))
  {
    StandardMetadata(s);
  }

  /** query_index asks for num_results matches under the title filter, and returns one tuple per match in the index's order. */
  lemma {:induction false} QueryIndexResults(query: string, episodeTitle: Option<string>, numResults: int,
                          embed: string -> Vector, search: QueryRequest -> seq<Match>)
    ensures var req := Request(query, episodeTitle, numResults, embed);
      var ms := search(req);
      var r := QueryIndex(query, episodeTitle, numResults, embed, search);
      && req.vector == embed(query)
      && req.topK == numResults && req.includeMetadata
      && req.filter == MetadataFilter(episodeTitle)
      && (req.filter.Some? <==> episodeTitle.Some? && episodeTitle.value != "")
      && (r.Ok? ==>
            && |r.value| == |ms|
            && forall k :: 0 <= k < |ms| ==> Ok(r.value[k]) == ProjectMatch(ms[k]))
  {
    ProjectedInOrder(search(Request(query, episodeTitle, numResults, embed)));
  }

  /** The app's call query_index(query), which takes the defaults: no
      episode title, so no filter, and five results. */
  function QueryWithDefaults(query: string, embed: string -> Vector,
                             search: QueryRequest -> seq<Match>): Result<seq<Result3>>
  {
    QueryIndex(query, None, DefaultNumResults, embed, search)
  }

  /** With the defaults the request is the query's embedding, top_k = 5,
      metadata included and no filter, and the results project the
      matches it returns, in order. */
  lemma {:induction false} DefaultQuery(query: string, embed: string -> Vector,
                                        search: QueryRequest -> seq<Match>)
    ensures var req := Request(query, None, DefaultNumResults, embed);
      var ms := search(req);
      var r := QueryWithDefaults(query, embed, search);
      && req == QueryRequest(embed(query), 5, true, None)
      && (r.Ok? ==>
            && |r.value| == |ms|
            && forall k :: 0 <= k < |ms| ==> Ok(r.value[k]) == ProjectMatch(ms[k]))
  {
    QueryIndexResults(query, None, DefaultNumResults, embed, search);
  }

  // ================================================================ format_prompt

  /** One chat message of the prompt: a dict with a role and a content. */
  class Message {
    var role: string
    var content: string

    constructor (role: string, content: string)
      ensures this.role == role && this.content == content
    {
      this.role := role;
      this.content := content;
    }
  }

  /** DEFAULT_PROMPT: one user message holding the template. */
  method NewDefaultPrompt() returns (prompt: seq<Message>)
    ensures |prompt| == 1 && fresh(prompt[0])
    ensures prompt[0].role == "user" && prompt[0].content == DefaultPromptText
  {
    var m := new Message("user", DefaultPromptText);
    prompt := [m];
  }

  /** One result's context entry: number, title in parentheses, a colon, the
      text and a blank line. */
  function Entry(r: Result3): string {
    r.0 + " (" + r.1 + "): " + r.2 + "\n\n"
  }

  /** The context string: the results' entries, in result order. */
  function Context(results: seq<Result3>): string {
    if results == [] then "" else Context(results[..|results| - 1]) + Entry(results[|results| - 1])
  }

  /** Context peels its last entry off. */
  lemma {:induction false} ContextLast(s: seq<Result3>)
    requires s != []
    ensures Context(s) == Context(s[..|s| - 1]) + Entry(s[|s| - 1])
  {
  }

  /** The context of a concatenation is the concatenation of the contexts:
      each result contributes its entry at its own place, and no result
      gives the empty context. */
  lemma {:induction false} ContextAppend(a: seq<Result3>, b: seq<Result3>)
    ensures Context(a + b) == Context(a) + Context(b)
    decreases |b|
  {
    if b == [] {
      assert a + b == a;
    } else {
      var n := |b| - 1;
      var ab := a + b;
      assert ab[..|ab| - 1] == a + b[..n];
      assert ab[|ab| - 1] == b[n];
      calc {
        Context(ab);
        { ContextLast(ab); }
        Context(a + b[..n]) + Entry(b[n]);
        { ContextAppend(a, b[..n]); }
        Context(a) + Context(b[..n]) + Entry(b[n]);
        { ContextLast(b); }
        Context(a) + Context(b);
      }
    }
  }

  /** The two substitutions on the last content: [CONTEXT] first, then
      [QUERY], each replacing every occurrence. */
  function Substituted(content: string, context: string, query: string): string {
    Replace(Replace(content, ContextMark, context), QueryMark, query)
  }

  /** A placeholder q that shares only its opening character with pattern p
      is not mistaken for p, and nothing after it is either. */
  lemma {:induction false} OtherMarkKept(q: string, rest: string, p: string, rep: string)
    requires |p| >= 2 && |q| >= 2 && q[0] == p[0] && q[1] != p[1]
    requires p[0] !in q[1..] && p[0] !in rest
    ensures Replace(q + rest, p, rep) == q + rest
  {
    assert !StartsWith(q + rest, p) by {
      if |q + rest| >= |p| {
        assert (q + rest)[..|p|][1] == q[1];
      }
    }
    assert (q + rest)[1..] == q[1..] + rest;
    ReplaceAbsent(q[1..] + rest, p, rep);
    assert [q[0]] + (q[1..] + rest) == q + rest;
  }

  /** First pass over head, p, a label, q, a label: only p matches, and it
      becomes the context. */
  lemma {:induction false} ContextPass(head: string, p: string, ql: string, q: string, rl: string, context: string)
    requires |p| >= 2 && |q| >= 2 && q[0] == p[0] && q[1] != p[1]
    requires p[0] !in head && p[0] !in ql && p[0] !in q[1..] && p[0] !in rl
    ensures Replace(head + (p + (ql + (q + rl))), p, context) == head + (context + (ql + (q + rl)))
  {
    ReplaceSkipsPrefix(head, p + (ql + (q + rl)), p, context);
    ReplaceAtStart(ql + (q + rl), p, context);
    ReplaceSkipsPrefix(ql, q + rl, p, context);
    OtherMarkKept(q, rl, p, context);
  }

  /** Second pass over head, the context, a label, q, a label: q is replaced
      inside the context on its own and the placeholder becomes the query. */
  lemma {:induction false} QueryPass(head: string, context: string, ql: string, q: string, rl: string, query: string)
    requires |q| >= 2 && q[0] !in head && q[0] !in ql && q[0] !in rl
    requires ql != [] && ql[0] !in q[1..]
    ensures Replace(head + (context + (ql + (q + rl))), q, query)
      == head + (Replace(context, q, query) + (ql + (query + rl)))
  {
    ReplaceSkipsPrefix(head, context + (ql + (q + rl)), q, query);
    assert (ql + (q + rl))[0] == ql[0];
    ReplaceAppend(context, ql + (q + rl), q, query);
    ReplaceSkipsPrefix(ql, q + rl, q, query);
    ReplaceAtStart(rl, q, query);
    ReplaceAbsent(rl, q, query);
  }

  /** Formatting the default template puts the context in place of
      [CONTEXT] and the query in place of [QUERY]; a [QUERY] that the
      context brought in is replaced by the query as well. */
  lemma {:induction false} FormattedDefault(context: string, query: string)
    ensures Substituted(DefaultPromptText, context, query) ==
      PromptHead + (Replace(context, QueryMark, query) + (QueryLabel + (query + ResponseLabel)))
  {
    PromptHeadPlain();
    MarksAndLabels();
    assert DefaultPromptText == PromptHead + (ContextMark + (QueryLabel + (QueryMark + ResponseLabel)));
    ContextPass(PromptHead, ContextMark, QueryLabel, QueryMark, ResponseLabel, context);
    QueryPass(PromptHead, context, QueryLabel, QueryMark, ResponseLabel, query);
  }

  /** The loop that builds the context string, one entry per result. */
  method JoinContext(results: seq<Result3>) returns (context: string)
    ensures context == Context(results)
  {
    context := "";
    var i := 0;
    while i < |results|
      invariant 0 <= i <= |results|
      invariant context == Context(results[..i])
    {
      assert results[..i + 1][..i] == results[..i];
      context := context + Entry(results[i]);
      i := i + 1;
    }
    assert results[..|results|] == results;
  }

  /** The deep copy of the template: one fresh message per template
      message, with the same role and content. */
  method CopyMessages(template: seq<Message>) returns (prompt: seq<Message>)
    ensures |prompt| == |template|
    ensures forall j :: 0 <= j < |template| ==>
      fresh(prompt[j]) && prompt[j].role == template[j].role && prompt[j].content == template[j].content
    ensures forall j, j' :: 0 <= j < j' < |template| ==> prompt[j] != prompt[j']
  {
    prompt := [];
    var k := 0;
    while k < |template|
      invariant 0 <= k <= |template|
      invariant |prompt| == k
      invariant forall j :: 0 <= j < k ==>
        fresh(prompt[j]) && prompt[j].role == template[j].role && prompt[j].content == template[j].content
      invariant forall j, j' :: 0 <= j < j' < k ==> prompt[j] != prompt[j']
    {
      var copy := new Message(template[k].role, template[k].content);
      prompt := prompt + [copy];
      k := k + 1;
    }
  }

  /** format_prompt with its template passed in: the context is accumulated
      with `+=`, every message is copied, and only the copy of the last one
      has its content substituted; the template's messages are left as they
      were.  An empty template raises IndexError at prompt[-1]. */
  method FormatPrompt(results: seq<Result3>, query: string, template: seq<Message>)
    returns (r: Result<seq<Message>>)
    ensures r.Ok? <==> |template| > 0
    ensures r.Err? ==> r.error == IndexError
    ensures r.Ok? ==>
      var prompt := r.value;
      var n := |template|;
      && |prompt| == n
      && (forall k :: 0 <= k < n ==> fresh(prompt[k]) && prompt[k].role == template[k].role)
      && (forall k :: 0 <= k < n - 1 ==> prompt[k].content == template[k].content)
      && prompt[n - 1].content == Substituted(template[n - 1].content, Context(results), query)
      && (forall j, j' :: 0 <= j < j' < n ==> prompt[j] != prompt[j'])
    ensures forall k :: 0 <= k < |template| ==>
      template[k].role == old(template[k].role) && template[k].content == old(template[k].content)
  {
    var context := JoinContext(results);
    var prompt := CopyMessages(template);
    if |prompt| == 0 {
      return Err(IndexError);
    }
    var last := prompt[|prompt| - 1];
    last.content := Replace(last.content, ContextMark, context);
    last.content := Replace(last.content, QueryMark, query);
    r := Ok(prompt);
  }
}
