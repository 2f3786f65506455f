/** `LotrCharactersRag`: answers a question about a character by embedding it with
    Jina, searching the Qdrant collection with the embedding, projecting the hits
    onto the recognised character fields, rendering the prompt templates and asking
    OpenAI. The three remote services are oracles (`Services`), and every model
    operation that reaches one returns the calls it made, in order. */
module Rag {
  import opened Wrappers
  import opened Errors
  import Text
  import Json

  // ---------------------------------------------------------------------------
  // Configuration fixed by the constructor

  const CollectionName: string := "lotr-characters"
  const JinaUrl: string := "https://api.jina.ai/v1/embeddings"
  const JinaEmbeddingModel: string := "jina-embeddings-v4"
  const EmbeddingDimension: int := 512
  const QueryingTask: string := "retrieval.query"
  const JinaTimeoutSeconds: int := 30
  const OpenAiModel: string := "gpt-4o-mini"
  const OpenAiTemperature: real := 0.5
  /** The number of hits `answer_lotr` asks the index for. */
  const AnswerSearchLimit: int := 6

  /** One piece of a `str.format` template: literal text (braces already
      unescaped) or a named replacement field. */
  datatype Segment = Lit(text: string) | Placeholder(name: string)

  type Template = seq<Segment>

  /** What the environment and the prompt files supply: `JINA_API_KEY` (absent
      when the variable is unset), the user prompt template and the system prompt. */
  datatype Config = Config(jinaApiKey: Option<string>, userTemplate: Template, systemPrompt: string)

  // ---------------------------------------------------------------------------
  // Hits and their projection (`__format_hits_response`)

  /** A payload value: a string or JSON null. */
  datatype Value = Null | Str(s: string)

  /** A hit's payload: the character's stored metadata. */
  type Hit = map<string, Value>

  /** The fields a projected character may keep, in the order it keeps them. */
  const BasicFields: seq<string> :=
    ["race", "gender", "realm", "culture", "birth", "death", "spouse", "hair", "height", "biography", "history"]

  /** `hit.get(key)`. */
  function Get(hit: Hit, key: string): Option<Value> {
    if key in hit then Some(hit[key]) else None
  }

  /** Python truthiness of `hit.get(key)`: present, not null, not the empty string. */
  predicate Truthy(v: Option<Value>) {
    v.Some? && v.value.Str? && v.value.s != ""
  }

  /** The members `character.update(...)` adds for `fields`: each field whose value
      in the hit is truthy, paired with that value, in the order of `fields`. */
  function ProjectFrom(hit: Hit, fields: seq<string>): (r: Json.Record)
    ensures |r| <= |fields|
    ensures forall i :: 0 <= i < |r| ==>
              r[i].0 in fields && Get(hit, r[i].0) == Some(Str(r[i].1)) && r[i].1 != ""
  {
    if fields == [] then []
    else
      var f := fields[0];
      (if Truthy(Get(hit, f)) then [(f, hit[f].s)] else []) + ProjectFrom(hit, fields[1..])
  }

  /** One character as the prompt sees it. */
  function Project(hit: Hit): (r: Json.Record)
    ensures |r| <= |BasicFields|
    ensures forall i :: 0 <= i < |r| ==>
              r[i].0 in BasicFields && Get(hit, r[i].0) == Some(Str(r[i].1)) && r[i].1 != ""
  {
    ProjectFrom(hit, BasicFields)
  }

  /** The characters of all hits: one record per hit, in hit order. */
  function ProjectAll(hits: seq<Hit>): (rs: seq<Json.Record>)
    ensures |rs| == |hits|
    ensures forall i :: 0 <= i < |hits| ==> rs[i] == Project(hits[i])
  {
    if hits == [] then [] else ProjectAll(hits[..|hits| - 1]) + [Project(hits[|hits| - 1])]
  }

  /** `__format_hits_response(hits)`: iterating over `None` raises `TypeError`;
      otherwise the projected characters are serialised with `json.dumps(..., indent=2)`. */
  method FormatHitsResponse(hits: Option<seq<Hit>>) returns (r: Result<string, PyError>)
    ensures hits.None? ==> r == Err(NoneNotIterable)
    ensures hits.Some? ==> r == Ok(Json.DumpRecords(ProjectAll(hits.value)))
  {
    if hits.None? {
      return Err(NoneNotIterable);
    }
    var all := hits.value;
    var characterData: seq<Json.Record> := [];
    var i := 0;
    while i < |all|
      invariant 0 <= i <= |all|
      invariant characterData == ProjectAll(all[..i])
    {
      var character := Project(all[i]);
      characterData := characterData + [character];
      i := i + 1;
      assert all[..i][..i - 1] == all[..i - 1];
    }
    assert all[..i] == all;
    return Ok(Json.DumpRecords(characterData));
  }

  /** `r` has a member named `k`. */
  ghost predicate HasKey(r: Json.Record, k: string) {
    exists i :: 0 <= i < |r| && r[i].0 == k
  }

  /** A field is kept exactly when it is one of `fields` and its value is truthy. */
  lemma {:induction false} ProjectFromKeys(hit: Hit, fields: seq<string>, k: string)
    ensures HasKey(ProjectFrom(hit, fields), k) <==> k in fields && Truthy(Get(hit, k))
  {
    if fields != [] {
      var f := fields[0];
      var head: Json.Record := if Truthy(Get(hit, f)) then [(f, hit[f].s)] else [];
      var rest := ProjectFrom(hit, fields[1..]);
      assert ProjectFrom(hit, fields) == head + rest;
      ProjectFromKeys(hit, fields[1..], k);
      HasKeyConcat(head, rest, k);
      assert HasKey(head, k) <==> k == f && Truthy(Get(hit, f)) by {
        if HasKey(head, k) {
          assert head[0].0 == k;
        }
        if k == f && Truthy(Get(hit, f)) {
          assert head[0].0 == k;
        }
      }
      assert k in fields <==> k == f || k in fields[1..];
    }
  }

  lemma HasKeyConcat(a: Json.Record, b: Json.Record, k: string)
    ensures HasKey(a + b, k) <==> HasKey(a, k) || HasKey(b, k)
  {
    if HasKey(b, k) {
      var i :| 0 <= i < |b| && b[i].0 == k;
      assert (a + b)[|a| + i] == b[i];
    }
    if HasKey(a, k) {
      var i :| 0 <= i < |a| && a[i].0 == k;
      assert (a + b)[i] == a[i];
    }
    if HasKey(a + b, k) {
      var i :| 0 <= i < |a + b| && (a + b)[i].0 == k;
      if i >= |a| {
        assert b[i - |a|] == (a + b)[i];
      } else {
        assert a[i] == (a + b)[i];
      }
    }
  }

  /** The recognised fields with a truthy value are exactly the keys of the
      projected character, and each kept value is the hit's, unchanged. */
  lemma ProjectKeys(hit: Hit, k: string)
    ensures HasKey(Project(hit), k) <==> k in BasicFields && Truthy(Get(hit, k))
    ensures forall i :: 0 <= i < |Project(hit)| ==> Get(hit, Project(hit)[i].0) == Some(Str(Project(hit)[i].1))
  {
    ProjectFromKeys(hit, BasicFields, k);
  }

  /** A hit with no truthy value among `fields` projects to the empty record. */
  lemma {:induction false} ProjectFromNothing(hit: Hit, fields: seq<string>)
    requires forall f :: f in fields ==> !Truthy(Get(hit, f))
    ensures ProjectFrom(hit, fields) == []
  {
    if fields != [] {
      assert fields[0] in fields;
      ProjectFromNothing(hit, fields[1..]);
    }
  }

  /** A hit with no recognised truthy field still yields a record: the empty one. */
  lemma ProjectNothing(hit: Hit)
    requires forall f :: f in BasicFields ==> !Truthy(Get(hit, f))
    ensures Project(hit) == []
  {
    ProjectFromNothing(hit, BasicFields);
  }

  predicate NoDuplicates(s: seq<string>) {
    forall i, j :: 0 <= i < j < |s| ==> s[i] != s[j]
  }

  /** The position of `k` in `fields`. */
  function Rank(fields: seq<string>, k: string): (n: nat)
    requires k in fields
    ensures n < |fields| && fields[n] == k
  {
    if fields[0] == k then 0 else 1 + Rank(fields[1..], k)
  }

  /** Every member of `r` is one of `fields`, and the members come in the order of
      `fields` (so no name repeats). */
  predicate InFieldOrder(r: Json.Record, fields: seq<string>) {
    && (forall i :: 0 <= i < |r| ==> r[i].0 in fields)
    && (forall i, j :: 0 <= i < j < |r| ==> Rank(fields, r[i].0) < Rank(fields, r[j].0))
  }

  /** Members come out in the order of `fields`, whatever the hit holds. */
  lemma {:induction false} ProjectFromOrdered(hit: Hit, fields: seq<string>)
    requires NoDuplicates(fields)
    ensures InFieldOrder(ProjectFrom(hit, fields), fields)
  {
    if fields != [] {
      var f := fields[0];
      var rest := ProjectFrom(hit, fields[1..]);
      assert NoDuplicates(fields[1..]);
      ProjectFromOrdered(hit, fields[1..]);
      OrderShift(rest, fields);
      if Truthy(Get(hit, f)) {
        assert ProjectFrom(hit, fields) == [(f, hit[f].s)] + rest;
        OrderCons((f, hit[f].s), rest, fields);
      } else {
        assert ProjectFrom(hit, fields) == rest;
      }
    }
  }

  /** Members in the order of the fields after the first are in the order of all
      the fields, and none of them is the first. */
  lemma OrderShift(r: Json.Record, fields: seq<string>)
    requires fields != [] && NoDuplicates(fields) && InFieldOrder(r, fields[1..])
    ensures InFieldOrder(r, fields)
    ensures forall i :: 0 <= i < |r| ==> Rank(fields, r[i].0) > 0
  {
    forall i | 0 <= i < |r| ensures Rank(fields, r[i].0) == 1 + Rank(fields[1..], r[i].0) {
      var n := Rank(fields[1..], r[i].0);
      assert fields[1 + n] == r[i].0;
      assert fields[0] != fields[1 + n];
    }
  }

  /** A member for the first field can go in front. */
  lemma OrderCons(m: (string, string), r: Json.Record, fields: seq<string>)
    requires fields != [] && m.0 == fields[0] && InFieldOrder(r, fields)
    requires forall i :: 0 <= i < |r| ==> Rank(fields, r[i].0) > 0
    ensures InFieldOrder([m] + r, fields)
  {
    var t := [m] + r;
    forall i, j | 0 <= i < j < |t| ensures Rank(fields, t[i].0) < Rank(fields, t[j].0) {
      assert t[j] == r[j - 1];
      if i > 0 {
        assert t[i] == r[i - 1];
      }
    }
  }

  lemma BasicFieldsDistinct()
    ensures NoDuplicates(BasicFields)
  {
  }

  /** The projected character's members follow the fixed field order, so no key repeats. */
  lemma ProjectOrdered(hit: Hit)
    ensures InFieldOrder(Project(hit), BasicFields)
  {
    BasicFieldsDistinct();
    ProjectFromOrdered(hit, BasicFields);
  }

  /** A projected character read back as a dictionary. Meant for records without
      repeated names, as projections are (`ProjectOrdered`); were a name repeated,
      its first member's value would be kept, where `dict()` keeps the last. */
  function AsHit(r: Json.Record): (h: Hit)
    ensures forall k :: k in h ==> HasKey(r, k)
  {
    if r == [] then map[]
    else
      var h := AsHit(r[1..])[r[0].0 := Str(r[0].1)];
      assert forall k :: k in AsHit(r[1..]) ==> HasKey(r, k) by {
        forall k | k in AsHit(r[1..]) ensures HasKey(r, k) {
          var i :| 0 <= i < |r[1..]| && r[1..][i].0 == k;
          assert r[1 + i].0 == k;
        }
      }
      assert r[0].0 == r[0].0;
      h
  }

  /** Every member of a record is in its dictionary, with the value of one of the
      members of that name. */
  lemma {:induction false} AsHitGet(r: Json.Record, k: string)
    requires HasKey(r, k)
    ensures k in AsHit(r) && exists i :: 0 <= i < |r| && r[i].0 == k && AsHit(r)[k] == Str(r[i].1)
  {
    if r[0].0 != k {
      var i :| 0 <= i < |r| && r[i].0 == k;
      assert r[1..][i - 1].0 == k;
      AsHitGet(r[1..], k);
      var j :| 0 <= j < |r[1..]| && r[1..][j].0 == k && AsHit(r[1..])[k] == Str(r[1..][j].1);
      assert r[1 + j] == r[1..][j];
    }
  }

  /** Two hits that agree on which of `fields` are truthy, and on those values,
      project the same. */
  lemma {:induction false} ProjectFromAgree(h1: Hit, h2: Hit, fields: seq<string>)
    requires forall f :: f in fields ==> Truthy(Get(h1, f)) == Truthy(Get(h2, f))
    requires forall f :: f in fields && Truthy(Get(h1, f)) ==> Get(h1, f) == Get(h2, f)
    ensures ProjectFrom(h1, fields) == ProjectFrom(h2, fields)
  {
    if fields != [] {
      ProjectFromAgree(h1, h2, fields[1..]);
    }
  }

  /** Projecting an already projected character gives the same character. */
  lemma ProjectIdempotent(hit: Hit)
    ensures Project(AsHit(Project(hit))) == Project(hit)
  {
    var r := Project(hit);
    var h := AsHit(r);
    forall f | f in BasicFields
      ensures Truthy(Get(h, f)) == Truthy(Get(hit, f))
      ensures Truthy(Get(hit, f)) ==> Get(hit, f) == Get(h, f)
    {
      ProjectKeys(hit, f);
      if HasKey(r, f) {
        AsHitGet(r, f);
      }
    }
    ProjectFromAgree(hit, h, BasicFields);
  }

  // ---------------------------------------------------------------------------
  // Prompt rendering (`__format_prompt`)

  /** The two replacement fields the user template is formatted with. */
  predicate Known(seg: Segment) {
    seg.Lit? || seg.name == "retrieved_context" || seg.name == "user_question"
  }

  /** The text one known segment becomes. */
  function Piece(seg: Segment, context: string, question: string): string
    requires Known(seg)
  {
    if seg.Lit? then seg.text
    else if seg.name == "retrieved_context" then context
    else question
  }

  /** A field that names a positional argument: empty (automatic numbering) or a
      number. */
  predicate Positional(name: string) {
    forall i :: 0 <= i < |name| ==> '0' <= name[i] <= '9'
  }

  /** The error `str.format` raises for a field it was given no argument for: an
      index error for a positional field, a key error naming any other. */
  function MissingField(name: string): PyError {
    if Positional(name) then IndexError else KeyError(name)
  }

  /** `template.format(retrieved_context=context, user_question=question)`: the
      first field that is neither raises. */
  function Render(t: Template, context: string, question: string): (r: Result<string, PyError>)
    ensures r.Ok? <==> forall i :: 0 <= i < |t| ==> Known(t[i])
    ensures r.Err? ==> exists i :: 0 <= i < |t| && !Known(t[i]) && r.error == MissingField(t[i].name)
                                  && forall j :: 0 <= j < i ==> Known(t[j])
  {
    if t == [] then Ok("")
    else if !Known(t[0]) then Err(MissingField(t[0].name))
    else
      match Render(t[1..], context, question)
      case Ok(rest) => Ok(Piece(t[0], context, question) + rest)
      case Err(e) =>
        assert forall i :: 1 <= i < |t| ==> t[i] == t[1..][i - 1];
        Err(e)
  }

  /** Every field of a successfully rendered template is replaced by its value,
      so that value occurs in the rendered text. */
  lemma {:induction false} RenderContainsPiece(t: Template, context: string, question: string, j: nat)
    requires j < |t| && Render(t, context, question).Ok?
    ensures Known(t[j])
    ensures Text.Contains(Render(t, context, question).value, Piece(t[j], context, question))
  {
    RenderCons(t, context, question);
    var head := Piece(t[0], context, question);
    var rest := Render(t[1..], context, question).value;
    if j == 0 {
      Text.OccursFront(head, rest);
    } else {
      assert t[1..][j - 1] == t[j];
      RenderContainsPiece(t[1..], context, question, j - 1);
      var w := Piece(t[j], context, question);
      var k :| Text.OccursAt(rest, w, k);
      Text.OccursBehind(head, rest, w, k);
    }
  }

  /** A rendered template is its first piece followed by the rest rendered. */
  lemma RenderCons(t: Template, context: string, question: string)
    requires t != [] && Render(t, context, question).Ok?
    ensures Known(t[0]) && Render(t[1..], context, question).Ok?
    ensures Render(t, context, question).value == Piece(t[0], context, question) + Render(t[1..], context, question).value
  {
  }

  /** `(user_prompt, system_prompt)`: the user template rendered and stripped, and
      the system prompt as loaded. */
  function FormatPrompt(cfg: Config, query: string, context: string): (r: Result<(string, string), PyError>)
    ensures r.Ok? <==> Render(cfg.userTemplate, context, query).Ok?
    ensures r.Ok? ==> r.value.1 == cfg.systemPrompt
    ensures r.Err? ==> r.error == Render(cfg.userTemplate, context, query).error
  {
    match Render(cfg.userTemplate, context, query)
    case Ok(u) => Ok((Text.Strip(u), cfg.systemPrompt))
    case Err(e) => Err(e)
  }

  /** Whatever a field of the template is replaced by survives the stripping of
      the rendered text, provided it neither starts nor ends with whitespace. */
  lemma PromptCarriesPiece(cfg: Config, query: string, context: string, j: nat, w: string)
    requires j < |cfg.userTemplate| && FormatPrompt(cfg, query, context).Ok?
    requires Known(cfg.userTemplate[j]) && Piece(cfg.userTemplate[j], context, query) == w
    requires w != [] && w[0] !in Text.Whitespace && w[|w| - 1] !in Text.Whitespace
    ensures Text.Contains(FormatPrompt(cfg, query, context).value.0, w)
  {
    var u := Render(cfg.userTemplate, context, query).value;
    RenderContainsPiece(cfg.userTemplate, context, query, j);
    var k :| Text.OccursAt(u, w, k);
    Text.StripCharsKeeps(u, Text.Whitespace, k, w);
  }

  /** The user prompt carries the question verbatim wherever the template asks for
      it, unless stripping eats into it (a question that starts or ends with
      whitespace). */
  lemma PromptCarriesQuestion(cfg: Config, query: string, context: string, j: nat)
    requires j < |cfg.userTemplate| && cfg.userTemplate[j] == Placeholder("user_question")
    requires FormatPrompt(cfg, query, context).Ok?
    requires query != [] && query[0] !in Text.Whitespace && query[|query| - 1] !in Text.Whitespace
    ensures Text.Contains(FormatPrompt(cfg, query, context).value.0, query)
  {
    PromptCarriesPiece(cfg, query, context, j, query);
  }

  /** A context that starts with `[` and ends with `]` survives stripping. */
  lemma PromptCarriesBracketed(cfg: Config, query: string, context: string, j: nat)
    requires j < |cfg.userTemplate| && cfg.userTemplate[j] == Placeholder("retrieved_context")
    requires FormatPrompt(cfg, query, context).Ok?
    requires |context| >= 2 && context[0] == '[' && context[|context| - 1] == ']'
    ensures Text.Contains(FormatPrompt(cfg, query, context).value.0, context)
  {
    Text.BracketsNotSpace();
    PromptCarriesPiece(cfg, query, context, j, context);
  }

  /** The serialised characters always survive stripping: they start with `[`
      and end with `]`. */
  lemma PromptCarriesContext(cfg: Config, query: string, characters: seq<Json.Record>, j: nat)
    requires j < |cfg.userTemplate| && cfg.userTemplate[j] == Placeholder("retrieved_context")
    requires FormatPrompt(cfg, query, Json.DumpRecords(characters)).Ok?
    ensures Text.Contains(FormatPrompt(cfg, query, Json.DumpRecords(characters)).value.0, Json.DumpRecords(characters))
  {
    PromptCarriesBracketed(cfg, query, Json.DumpRecords(characters), j);
  }

  // ---------------------------------------------------------------------------
  // The remote services

  /** An embedding vector; its components are never inspected. */
  type Embedding = seq<real>

  datatype JinaRequest = JinaRequest(
    url: string, headers: seq<(string, string)>, input: seq<string>, model: string,
    dimensions: int, task: string, lateChunking: bool, timeoutSeconds: int)

  /** A Jina response body: not JSON at all, or JSON that does or does not hold
      `data[0].embedding`. */
  datatype JinaBody = NotJson(decodeError: string) | JsonBody(embedding: Option<Embedding>)

  /** What `requests.post` does: raise a `RequestException`, or return a response. */
  datatype HttpOutcome = RequestFailed(cause: string) | HttpResponse(status: nat, text: string, body: JinaBody)

  datatype QueryRequest = QueryRequest(collection: string, query: Embedding, limit: int, withPayload: bool)

  datatype ScoredPoint = ScoredPoint(payload: Hit)

  /** What `query_points` does: raise, or return points nearest first. */
  datatype QueryOutcome = QueryFailed(cause: string) | QueryResponse(points: seq<ScoredPoint>)

  datatype Role = System | User

  datatype ChatMessage = ChatMessage(role: Role, content: string)

  datatype ChatRequest = ChatRequest(model: string, messages: seq<ChatMessage>, temperature: real)

  /** What `chat.completions.create` does: raise, or return choices whose message
      content may be null. */
  datatype CompletionOutcome = CompletionFailed(cause: string) | Completion(choices: seq<Option<string>>)

  /** The three remote services, as functions from request to outcome. */
  datatype Services = Services(
    jina: JinaRequest -> HttpOutcome,
    qdrant: QueryRequest -> QueryOutcome,
    openai: ChatRequest -> CompletionOutcome)

  /** One request sent to a remote service. */
  datatype Call = JinaCall(jina: JinaRequest) | QdrantCall(query: QueryRequest) | OpenAiCall(chat: ChatRequest)

  /** The text of `f"{self.JINA_API_KEY}"`: `None` when the variable is unset. */
  function KeyText(key: Option<string>): string {
    if key.Some? then key.value else "None"
  }

  /** The request `__get_jina_embedding` posts: one input, the querying task,
      late chunking, a 30-second timeout. */
  function EmbeddingRequest(cfg: Config, query: string): (r: JinaRequest)
    ensures r.input == [query]
  {
    JinaRequest(
      JinaUrl,
      [("Content-Type", "application/json"), ("Authorization", "Bearer " + KeyText(cfg.jinaApiKey))],
      [query], JinaEmbeddingModel, EmbeddingDimension, QueryingTask, true, JinaTimeoutSeconds)
  }

  /** The embedding request depends on nothing but the question and the key text:
      the question is sent verbatim, and so is the key. */
  lemma EmbeddingRequestDetermined(c1: Config, c2: Config, q1: string, q2: string)
    ensures EmbeddingRequest(c1, q1) == EmbeddingRequest(c2, q2) <==> q1 == q2 && KeyText(c1.jinaApiKey) == KeyText(c2.jinaApiKey)
  {
    if EmbeddingRequest(c1, q1) == EmbeddingRequest(c2, q2) {
      var a, b := EmbeddingRequest(c1, q1).headers[1].1, EmbeddingRequest(c2, q2).headers[1].1;
      assert a[7..] == KeyText(c1.jinaApiKey) && b[7..] == KeyText(c2.jinaApiKey);
      assert EmbeddingRequest(c1, q1).input[0] == q1;
    }
  }

  /** `__get_jina_embedding` after the post: the embedding on status 200; the
      status and body text in the error on any other status; the cause on a
      request failure (including a body that is not JSON, whose decoding error is
      a `RequestException`); a lookup error when the JSON lacks the embedding. */
  function GetJinaEmbedding(outcome: HttpOutcome): (r: Result<Embedding, PyError>)
    ensures r.Ok? <==> outcome.HttpResponse? && outcome.status == 200
                       && outcome.body.JsonBody? && outcome.body.embedding.Some?
    ensures r.Ok? ==> r.value == outcome.body.embedding.value
    ensures outcome.RequestFailed? ==> r == Err(Exception("Request failed: " + outcome.cause))
    ensures outcome.HttpResponse? && outcome.status != 200 ==>
              r == Err(Exception("Jina API error: " + Text.NatDecimal(outcome.status) + " - " + outcome.text))
  {
    match outcome
    case RequestFailed(cause) => Err(Exception("Request failed: " + cause))
    case HttpResponse(status, text, body) =>
      if status != 200 then Err(Exception("Jina API error: " + Text.NatDecimal(status) + " - " + text))
      else
        match body
        case NotJson(e) => Err(Exception("Request failed: " + e))
        case JsonBody(None) => Err(LookupError)
        case JsonBody(Some(v)) => Ok(v)
  }

  /** The error for a status other than 200 names the status: two such responses
      with the same body text give the same error exactly when their statuses agree. */
  lemma JinaErrorCarriesStatus(a: HttpOutcome, b: HttpOutcome)
    requires a.HttpResponse? && b.HttpResponse? && a.status != 200 && b.status != 200 && a.text == b.text
    ensures GetJinaEmbedding(a) == GetJinaEmbedding(b) <==> a.status == b.status
  {
    if GetJinaEmbedding(a) == GetJinaEmbedding(b) {
      Text.Cancel("Jina API error: ", Text.NatDecimal(a.status), Text.NatDecimal(b.status), " - ", a.text);
      Text.NatDecimalInjective(a.status, b.status);
    }
  }

  /** `[point.payload for point in query_points.points]`, or `None` when the query raised. */
  function Payloads(outcome: QueryOutcome): (r: Option<seq<Hit>>)
    ensures r.None? <==> outcome.QueryFailed?
    ensures r.Some? ==> |r.value| == |outcome.points|
                        && forall i :: 0 <= i < |r.value| ==> r.value[i] == outcome.points[i].payload
  {
    match outcome
    case QueryFailed(_) => None
    case QueryResponse(points) => Some(seq(|points|, i requires 0 <= i < |points| => points[i].payload))
  }

  /** `__search`: any failure of the embedding or of the query gives `None`. */
  method Search(cfg: Config, svc: Services, query: string, limit: int) returns (hits: Option<seq<Hit>>, calls: seq<Call>)
    ensures (hits, calls) == Searched(cfg, svc, query, limit)
    ensures var request := EmbeddingRequest(cfg, query);
            var embedding := GetJinaEmbedding(svc.jina(request));
            && (embedding.Err? ==> hits.None? && calls == [JinaCall(request)])
            && (embedding.Ok? ==>
                  var search := QueryRequest(CollectionName, embedding.value, limit, true);
                  && calls == [JinaCall(request), QdrantCall(search)]
                  && hits == Payloads(svc.qdrant(search)))
  {
    var request := EmbeddingRequest(cfg, query);
    calls := [JinaCall(request)];
    var embedding := GetJinaEmbedding(svc.jina(request));
    if embedding.Err? {
      assert Searched(cfg, svc, query, limit) == (None, calls);
      return None, calls;
    }
    var queryRequest := QueryRequest(CollectionName, embedding.value, limit, true);
    calls := [JinaCall(request), QdrantCall(queryRequest)];
    hits := Payloads(svc.qdrant(queryRequest));
    assert Searched(cfg, svc, query, limit) == (hits, calls);
  }

  /** The request `__llm` sends: the system prompt, then the user prompt. */
  function ChatRequestFor(userPrompt: string, systemPrompt: string): (r: ChatRequest)
    ensures |r.messages| == 2 && r.messages[0].role == System && r.messages[1].role == User
  {
    ChatRequest(OpenAiModel, [ChatMessage(System, systemPrompt), ChatMessage(User, userPrompt)], OpenAiTemperature)
  }

  /** Both prompts reach the model verbatim: different prompts make different
      requests. */
  lemma ChatRequestInjective(u1: string, s1: string, u2: string, s2: string)
    ensures ChatRequestFor(u1, s1) == ChatRequestFor(u2, s2) <==> u1 == u2 && s1 == s2
  {
    if ChatRequestFor(u1, s1) == ChatRequestFor(u2, s2) {
      assert ChatRequestFor(u1, s1).messages[0] == ChatRequestFor(u2, s2).messages[0];
      assert ChatRequestFor(u1, s1).messages[1] == ChatRequestFor(u2, s2).messages[1];
    }
  }

  /** `res.choices[0].message.content`, unmodified (it may be null). */
  function FirstChoice(outcome: CompletionOutcome): (r: Result<Option<string>, PyError>)
    ensures r.Ok? <==> outcome.Completion? && |outcome.choices| > 0
    ensures r.Ok? ==> r.value == outcome.choices[0]
  {
    match outcome
    case CompletionFailed(cause) => Err(ServiceError(cause))
    case Completion(choices) => if |choices| == 0 then Err(IndexError) else Ok(choices[0])
  }

  /** Why there is no answer: a completion without choices raises `IndexError`,
      and a failed call propagates. */
  lemma FirstChoiceErrors(outcome: CompletionOutcome)
    ensures outcome.Completion? && outcome.choices == [] ==> FirstChoice(outcome) == Err(IndexError)
    ensures outcome.CompletionFailed? ==> FirstChoice(outcome) == Err(ServiceError(outcome.cause))
  {
  }

  /** What `__search` returns and the requests it sends: the reference `Search`
      is proved against. */
  function Searched(cfg: Config, svc: Services, query: string, limit: int): (r: (Option<seq<Hit>>, seq<Call>))
    ensures 1 <= |r.1| <= 2 && r.1[0] == JinaCall(EmbeddingRequest(cfg, query))
  {
    var request := EmbeddingRequest(cfg, query);
    var embedding := GetJinaEmbedding(svc.jina(request));
    if embedding.Err? then (None, [JinaCall(request)])
    else
      var search := QueryRequest(CollectionName, embedding.value, limit, true);
      (Payloads(svc.qdrant(search)), [JinaCall(request), QdrantCall(search)])
  }

  /** What `answer_lotr` does with the hits `__search` returned: the answer, and
      the request it sends to the model if it gets that far. */
  function AnswerFrom(cfg: Config, svc: Services, query: string, hits: Option<seq<Hit>>): (r: (Result<Option<string>, PyError>, seq<Call>))
    ensures |r.1| <= 1 && (|r.1| == 1 ==> r.1[0].OpenAiCall?)
    ensures hits.None? ==> r == (Err(NoneNotIterable), [])
  {
    if hits.None? then (Err(NoneNotIterable), [])
    else
      match FormatPrompt(cfg, query, Json.DumpRecords(ProjectAll(hits.value)))
      case Err(e) => (Err(e), [])
      case Ok(prompt) =>
        var chat := ChatRequestFor(prompt.0, prompt.1);
        (FirstChoice(svc.openai(chat)), [OpenAiCall(chat)])
  }

  /** What `answer_lotr` returns or raises, and the requests it sends, as one value:
      the reference the method below is proved against. */
  function Answer(cfg: Config, svc: Services, query: string): (r: (Result<Option<string>, PyError>, seq<Call>))
    ensures 1 <= |r.1| <= 3 && r.1[0] == JinaCall(EmbeddingRequest(cfg, query))
  {
    var (hits, searched) := Searched(cfg, svc, query, AnswerSearchLimit);
    var (answer, asked) := AnswerFrom(cfg, svc, query, hits);
    (answer, searched + asked)
  }

  /** The pipeline's sequence, as `answer_lotr` runs it. */
  lemma AnswerSequence(cfg: Config, svc: Services, query: string)
    // the embedding request always goes out first, and a failed embedding stops everything else
    ensures var (answer, calls) := Answer(cfg, svc, query);
            && 1 <= |calls| <= 3 && calls[0] == JinaCall(EmbeddingRequest(cfg, query))
            && (GetJinaEmbedding(svc.jina(EmbeddingRequest(cfg, query))).Err? <==> |calls| == 1)
    // the index is asked for six characters of the collection, with payloads
    ensures var (answer, calls) := Answer(cfg, svc, query);
            |calls| >= 2 ==>
              && calls[1].QdrantCall?
              && calls[1].query.collection == CollectionName
              && calls[1].query.limit == AnswerSearchLimit
              && calls[1].query.withPayload
    // no hits (embedding or query failure) fail at the projection, before any prompt
    ensures var (answer, calls) := Answer(cfg, svc, query);
            (|calls| == 1 || Payloads(svc.qdrant(calls[1].query)).None?) ==> answer == Err(NoneNotIterable)
    // with hits, the prompt is rendered from their projection
    ensures var (answer, calls) := Answer(cfg, svc, query);
            |calls| >= 2 && Payloads(svc.qdrant(calls[1].query)).Some? ==>
              var context := Json.DumpRecords(ProjectAll(Payloads(svc.qdrant(calls[1].query)).value));
              var prompts := FormatPrompt(cfg, query, context);
              && (prompts.Err? ==> answer == Err(prompts.error) && |calls| == 2)
              && (prompts.Ok? ==> |calls| == 3 && calls[2] == OpenAiCall(ChatRequestFor(prompts.value.0, prompts.value.1)))
    // the model sees two messages, system first, and its first choice is the answer
    ensures var (answer, calls) := Answer(cfg, svc, query);
            |calls| == 3 ==>
              && calls[2].OpenAiCall?
              && calls[2].chat.model == OpenAiModel
              && calls[2].chat.temperature == OpenAiTemperature
              && |calls[2].chat.messages| == 2
              && calls[2].chat.messages[0] == ChatMessage(System, cfg.systemPrompt)
              && calls[2].chat.messages[1].role == User
              && answer == FirstChoice(svc.openai(calls[2].chat))
  {
  }

  /** `answer_lotr`: search with limit 6, project, render, ask the model once. */
  method AnswerLotr(cfg: Config, svc: Services, query: string) returns (answer: Result<Option<string>, PyError>, calls: seq<Call>)
    ensures (answer, calls) == Answer(cfg, svc, query)
  {
    var hits;
    hits, calls := Search(cfg, svc, query, AnswerSearchLimit);
    var formatted := FormatHitsResponse(hits);
    if formatted.Err? {
      assert AnswerFrom(cfg, svc, query, hits) == (Err(NoneNotIterable), []);
      assert calls + [] == calls;
      return Err(formatted.error), calls;
    }
    var prompts := FormatPrompt(cfg, query, formatted.value);
    if prompts.Err? {
      assert AnswerFrom(cfg, svc, query, hits) == (Err(prompts.error), []);
      assert calls + [] == calls;
      return Err(prompts.error), calls;
    }
    var (userPrompt, systemPrompt) := prompts.value;
    var request := ChatRequestFor(userPrompt, systemPrompt);
    answer := FirstChoice(svc.openai(request));
    assert AnswerFrom(cfg, svc, query, hits) == (answer, [OpenAiCall(request)]);
    assert Answer(cfg, svc, query) == (answer, calls + [OpenAiCall(request)]);
    calls := calls + [OpenAiCall(request)];
  }
}
