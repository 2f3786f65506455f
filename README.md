# LotR characters chat: a verified model

This project models the question-answering service of the `lotr-characters-api`
repository in Dafny and proves properties of the model. The service answers a
question about a Lord of the Rings character in four steps:

- it embeds the question with Jina;
- it searches a Qdrant collection of character records with the embedding;
- it projects each hit onto eleven recognised fields and serialises the result as JSON;
- it renders a prompt template with that context and the question, and asks an OpenAI model.

Two Django REST views put a conversation store in front of the pipeline. One
loads or creates a conversation. The other asks a question and stores the
question and answer as a message.

Modules, one per file:

- `wrappers.dfy`: `Option` and `Result`. `Errors` lists the Python exceptions that cross a modelled boundary.
- `text.dfy`: `Text` models Python's `str.strip`, `str.strip(chars)`, `str.replace(pat, '')` and `str(int)`. `Hex` models hexadecimal digits.
- `uuid.dfy`: `Uuid` covers the canonical text of a UUID and how `uuid.UUID(hex=...)` reads a string.
- `json.dfy`: `Json` is what `json.dumps(records, indent=2)` writes for a list of string-valued objects, escapes included.
- `rag.dfy`: `Rag` covers `LotrCharactersRag` (hit projection, prompt rendering, the embedding client, search, the completion request and `answer_lotr`).
  - The three remote services are function-valued parameters (`Services`).
  - Every operation that reaches one returns the requests it sent, in order.
- `models.dfy`: `Models` covers the conversation and message records, their `__str__`, the `created_at` ordering, the related-messages relation and the cascade on delete.
- `serializers.dfy`: `Serializers` covers the three serializers: output fields, writable fields, `validate_feedback`, and a feedback update.
- `store.dfy`: `Database.Store` is a class holding the two tables and the clock that stamps `created_at`. Its methods insert and delete in place and keep the foreign key and the ordering invariant.
- `views.dfy`: `Views` covers `ConversationView.get` and `MessageView.post` as methods on the store.
  - A handler either responds with a status and a body, or raises.
  - An exception that escapes a handler becomes a server error (500).

Behaviour of the code that the model keeps as written:

- **A failed search is fatal.**
  - `__search` returns `None` for any exception, including an embedding failure, since the embedding call is inside its `try`.
  - `__format_hits_response` then iterates over `None` and raises `TypeError`.
  - So an embedding or index failure ends `answer_lotr` at the projection, before any prompt is rendered, and the completion service is never called. `Rag.AnswerSequence` states this.
- **A malformed conversation id gives 500 rather than 404.**
  - `get_object_or_404` in the views is Django's.
  - A malformed id raises the `UUIDField`'s `ValidationError`, which escapes the view.
- **The message model has no `feedback` column, but the serializers read and write one.**
  - The model gives each message an optional `feedback` that starts as `None`.
- **A null answer fails the insert.**
  - The completion's content may be `null`.
  - Inserting it into the `NOT NULL` answer column raises `IntegrityError`.
  - Since the pipeline has already run, the request then fails after the services were called, and no message is stored.

Identifiers that the source draws at random (`uuid.uuid4`) are parameters (`freshId`). A drawn id that is already in use makes the insert fail, as the primary key constraint would.

## Model

| member | source | states |
|---|---|---|
| Text.StripStart | lib/rag.py:102 | `lstrip` removes the longest leading run of stripped characters: the result is a suffix of the input, every removed character is a stripped one, and the result does not start with one |
| Text.StripEnd | lib/rag.py:102 | `rstrip` removes the longest trailing run of stripped characters: the result is a prefix, every removed character is a stripped one, and the result does not end with one |
| Text.StripCharsSlice | lib/rag.py:102 | `strip` keeps one contiguous piece of its input; everything before and after it is stripped characters, and the piece neither starts nor ends with one |
| Text.StripCharsIdempotent | lib/rag.py:102 | stripping the stripped prompt changes nothing |
| Text.StripCharsKeeps | lib/rag.py:102 | any piece of the text that neither starts nor ends with a stripped character still occurs in the stripped text |
| Text.BracketsNotSpace | lib/rag.py:102 | `[` and `]` are not whitespace, so `strip` never removes the brackets of the serialised context |
| Text.RemoveAllAbsent | chat/views.py:21 | `replace(pat, '')` changes nothing when the text lacks a character of the pattern |
| Text.RemoveCharConcat | chat/views.py:21 | removing every occurrence of one character distributes over concatenation |
| Text.NatDecimal | lib/rag.py:63 | `str(status_code)` is a non-empty string of decimal digits |
| Text.ReadNatDecimal | lib/rag.py:63 | reading the decimal text of a status code back gives that status code |
| Text.NatDecimalInjective | lib/rag.py:63 | two status codes have the same decimal text exactly when they are equal |
| Text.StripChars | lib/rag.py:102 | `strip` never lengthens its input, and a non-empty result neither starts nor ends with a stripped character |
| Text.Strip | lib/rag.py:102 | `str.strip()` never lengthens its input, and a non-empty result neither starts nor ends with whitespace |
| Text.RemoveAll | chat/views.py:21 | `replace(pat, '')` never lengthens its input, and removing a one-character pattern leaves no occurrence of that character |
| Hex.Encode | chat/views.py:66 | the hexadecimal text of a number has exactly the requested number of lower-case digits |
| Hex.Decode | chat/views.py:21 | a string is read as a number exactly when every character is a hexadecimal digit, in either case; `k` digits denote a number below 16^k |
| Hex.DecodeEncode | chat/views.py:21 | reading back the digits written for a number gives the number |
| Uuid.Digits | chat/views.py:21 | removing the `urn:` and `uuid:` prefixes, the braces and the dashes never lengthens the text and leaves no dash |
| Uuid.Parse | chat/views.py:21 | a string is read as a UUID only when exactly 32 characters remain once prefixes, braces and dashes are removed |
| Uuid.ParseAccepts | chat/views.py:21 | a string is read as a UUID exactly when 32 characters remain and every one of them is a hexadecimal digit |
| Uuid.ToText | chat/views.py:66 | `str(uuid)` is 36 characters long |
| Uuid.ParseToText | chat/views.py:21 | the lookup reads the canonical text of any UUID back as that UUID |
| Uuid.ToTextInjective | chat/views.py:66 | two UUIDs have the same canonical text exactly when they are equal |
| Hex.DigitValue | chat/views.py:21 | a character is a digit exactly when it is `0`-`9`, `a`-`f` or `A`-`F`, and a digit is worth less than 16 |
| Uuid.NoColon | chat/views.py:21 | the canonical text has no colon, so no `urn:` or `uuid:` prefix is removed from it |
| Uuid.NoBraceAtEnds | chat/views.py:21 | stripping braces leaves the canonical text as it is |
| Uuid.RemoveDashes | chat/views.py:21 | removing the dashes from the canonical text leaves its 32 hexadecimal digits |
| Uuid.DigitsOfText | chat/views.py:21 | after the `urn:`, `uuid:`, braces and dashes are removed, the canonical text leaves exactly the 32 digits |
| Json.UnicodeEscape | lib/rag.py:116 | a `\uXXXX` escape is six printable ASCII characters |
| Json.EscapeChar | lib/rag.py:116 | with `ensure_ascii`, every character is written as a non-empty run of printable ASCII |
| Json.Escape | lib/rag.py:116 | an escaped string body is printable ASCII only |
| Json.Quote | lib/rag.py:116 | a string literal is ASCII text |
| Json.DumpMembers | lib/rag.py:116 | the members of an object, one per line, are ASCII text |
| Json.DumpRecord | lib/rag.py:116 | one serialised object is ASCII text |
| Json.DumpItems | lib/rag.py:116 | the items of the list, one per line, are ASCII text |
| Json.DumpRecords | lib/rag.py:116 | the serialised characters are ASCII text that starts with `[` and ends with `]`, and it is `[]` exactly when there are no characters |
| Rag.ProjectFrom | lib/rag.py:111-113 | a projected record has no more members than there are fields, and each member is a recognised field whose value in the hit is that non-empty string; that no field repeats is `Rag.ProjectFromOrdered` |
| Rag.Project | lib/rag.py:111-113 | one hit's record has at most eleven members, and each is one of the eleven fields holding the hit's own non-empty string |
| Rag.ProjectAll | lib/rag.py:109-114 | exactly one record per hit, in hit order, each the projection of its hit |
| Rag.FormatHitsResponse | lib/rag.py:105-116 | iterating over `None` raises `TypeError`; otherwise the loop builds exactly the projection of every hit, and the result is its JSON text |
| Rag.ProjectFromKeys | lib/rag.py:113 | a field is kept exactly when it is one of the fields and its value is truthy |
| Rag.ProjectKeys | lib/rag.py:111-113 | a projected record has a member named `k` exactly when `k` is a recognised field with a truthy value, and every kept value is the hit's own |
| Rag.ProjectFromNothing | lib/rag.py:112-114 | a hit with no truthy value among the fields projects to the empty record |
| Rag.ProjectNothing | lib/rag.py:112-114 | a hit with no recognised truthy field still yields a record, the empty one |
| Rag.Rank | lib/rag.py:111 | the rank of a field is its position in the field list |
| Rag.ProjectFromOrdered | lib/rag.py:111-113 | when the fields are distinct, members come out in the order of the field list, whatever the order of the hit's keys |
| Rag.BasicFieldsDistinct | lib/rag.py:111 | the eleven recognised fields are distinct |
| Rag.ProjectOrdered | lib/rag.py:111-113 | a projected record's members follow the fixed field order, so no key repeats |
| Rag.AsHit | lib/rag.py:112-113 | every key of a record read back as a dictionary is the name of one of its members |
| Rag.AsHitGet | lib/rag.py:112-113 | every member name of a record is a key of its dictionary, with the value of one of the members of that name |
| Rag.ProjectFromAgree | lib/rag.py:113 | two hits that agree on which fields are truthy, and on those values, project alike |
| Rag.ProjectIdempotent | lib/rag.py:111-113 | projecting an already projected record gives the same record |
| Rag.Render | lib/rag.py:102 | formatting succeeds exactly when every field is `retrieved_context` or `user_question`; otherwise the first other field raises `KeyError` with its name, or `IndexError` when it is positional |
| Rag.RenderContainsPiece | lib/rag.py:102 | after formatting, each field's value occurs in the rendered text |
| Rag.FormatPrompt | lib/rag.py:100-103 | the prompts are produced exactly when the template renders; the system prompt is returned as loaded; a rendering error propagates unchanged |
| Rag.PromptCarriesPiece | lib/rag.py:102 | a substituted value that neither starts nor ends with whitespace occurs in the stripped user prompt |
| Rag.PromptCarriesQuestion | lib/rag.py:102 | the user prompt carries the question verbatim wherever the template asks for it, unless the question starts or ends with whitespace |
| Rag.PromptCarriesBracketed | lib/rag.py:102 | a context that starts with `[` and ends with `]` occurs whole in the stripped user prompt |
| Rag.PromptCarriesContext | lib/rag.py:102 | the serialised characters occur whole in the user prompt wherever the template asks for them |
| Rag.EmbeddingRequest | lib/rag.py:46-56 | the request embeds exactly the one query |
| Rag.EmbeddingRequestDetermined | lib/rag.py:46-56 | two embedding requests are equal exactly when they carry the same query and the same API key text |
| Rag.GetJinaEmbedding | lib/rag.py:57-65 | the embedding is returned exactly when the status is 200 and the JSON body holds one; any other status raises with the decimal status and the body text in the message; a request failure raises with its cause |
| Rag.JinaErrorCarriesStatus | lib/rag.py:62-63 | two error responses with the same body text raise the same error exactly when their statuses are equal |
| Rag.Payloads | lib/rag.py:75-81 | a failed query gives `None`; otherwise one payload per returned point, in point order |
| Rag.Search | lib/rag.py:71-86 | `__search` returns and sends exactly what `Rag.Searched` says: the embedding request is sent first; a failed embedding gives `None` and no query; otherwise the collection is queried once with that embedding, the limit and payloads, and any failure of the query gives `None` |
| Rag.ChatRequestFor | lib/rag.py:122-129 | the completion request holds exactly two messages, a system message first and a user message second |
| Rag.ChatRequestInjective | lib/rag.py:122-129 | two completion requests are equal exactly when they carry the same user prompt and the same system prompt |
| Rag.FirstChoice | lib/rag.py:130 | there is an answer exactly when the call returns at least one choice, and it is the first choice's content, unmodified and possibly null |
| Rag.FirstChoiceErrors | lib/rag.py:130 | a completion without choices raises `IndexError`, and a failed call propagates its cause |
| Rag.Searched | lib/rag.py:71-86 | `__search` sends one or two requests, the embedding request first |
| Rag.AnswerFrom | lib/rag.py:133-137 | once the hits are in, at most one more request is sent, and it goes to the model; when the search gave `None`, `TypeError` is raised and nothing is sent |
| Rag.Answer | lib/rag.py:132-137 | the pipeline sends between one and three requests, the embedding request first |
| Rag.AnswerSequence | lib/rag.py:122-137 | a failed embedding stops everything else; the index is asked for six hits of the collection with payloads; no hits fail at the projection with `TypeError` before any prompt; otherwise the prompt comes from the hits' projection, and the model is sent exactly two messages, system prompt first, and answers with its first choice |
| Rag.AnswerLotr | lib/rag.py:132-137 | `answer_lotr` returns or raises exactly what the pipeline definition says, and sends exactly its requests |
| Models.ConversationStr | chat/models.py:9-10 | `str(conversation)` is `Conversation ` followed by text that reads back as the conversation's id |
| Models.ConversationStrInjective | chat/models.py:9-10 | two conversations print alike exactly when they have the same id |
| Models.Excerpt | chat/models.py:24 | the excerpt is the prefix of the answer of length min(50, length of the answer) |
| Models.MessageStr | chat/models.py:23-24 | `str(message)` holds, in order: `(`, text that reads back as the conversation's id, `) `, the question, `: ` and the answer excerpt |
| Models.MessageStrParts | chat/models.py:24 | each part of a message's text sits at a fixed offset from the question's length |
| Models.InsertByCreated | chat/models.py:20-21 | placing a message into a list adds exactly that message |
| Models.InsertByCreatedOrdered | chat/models.py:20-21 | placing a message into a list ordered by `created_at` keeps it ordered |
| Models.OrderByCreated | chat/models.py:20-21 | a query's rows come back ordered by `created_at`, and they are a permutation of the rows |
| Models.InsertByCreatedLast | chat/models.py:20-21 | a message created no earlier than all others goes last |
| Models.OrderByCreatedOrdered | chat/models.py:20-21 | rows already in `created_at` order come back unchanged |
| Models.OrderByCreatedIdempotent | chat/models.py:20-21 | ordering twice is ordering once |
| Models.Related | chat/models.py:15 | `conversation.messages` holds exactly the messages whose foreign key is that conversation |
| Models.RelatedNone | chat/models.py:15 | a conversation that no message points at has no messages |
| Models.Cascade | chat/models.py:15 | after the cascade, exactly the messages of other conversations remain |
| Models.RelatedOrdered | chat/models.py:15-21 | one conversation's messages keep the creation order of the table |
| Models.CascadeRelated | chat/models.py:15 | after deleting a conversation it has no messages, and every other conversation keeps exactly its messages, in order |
| Models.CascadeChronological | chat/models.py:15-18 | the cascade keeps the survivors' creation order and distinct ids |
| Serializers.ValidateFeedback | chat/serializers.py:14-17 | `GOOD` and `BAD` are accepted and returned unchanged; any other value raises a validation error with the fixed message |
| Serializers.Writable | chat/serializers.py:20 | a field is writable exactly when it is declared and not read-only |
| Serializers.FeedbackWritable | chat/serializers.py:9-12 | the feedback serializer writes `feedback` and nothing else |
| Serializers.ConversationWritable | chat/serializers.py:19-24 | the nested messages cannot be written through the conversation serializer; only the id can |
| Serializers.Apply | chat/serializers.py:9-12 | saving writes only the listed fields: id, conversation and creation time never change, and neither does any column not listed |
| Serializers.ApplyFeedback | chat/serializers.py:9-12 | saving through the feedback serializer sets the feedback the request carries, and changes nothing when it carries none |
| Serializers.UpdateFeedback | chat/serializers.py:9-17 | an update succeeds exactly when the feedback is absent or `GOOD` or `BAD`; it changes the feedback to the value given and leaves question, answer, conversation, id and creation time as they were |
| Serializers.SerializeMessage | chat/serializers.py:4-7 | a serialised message has exactly the declared fields, in declared order |
| Serializers.SerializeMessageInjective | chat/serializers.py:4-7 | the serialised message determines the message, except for its conversation, which it leaves out |
| Serializers.SerializeConversation | chat/serializers.py:19-24 | a serialised conversation has exactly the declared fields, in declared order |
| Serializers.SerializeConversationShape | chat/serializers.py:19-24 | the serialised conversation reads back as its id and creation time, and lists one serialised message per related message, in order |
| Database.Store.constructor | chat/models.py:5-18 | the store starts with empty tables and satisfies its invariant |
| Database.Store.MessagesOf | chat/models.py:15-21 | `conversation.messages.all()` holds exactly the stored messages whose foreign key is the conversation, ordered by `created_at` |
| Database.Store.MessagesInInsertionOrder | chat/models.py:20-21 | under the invariant, a conversation's messages in `created_at` order are its messages in insertion order |
| Database.Store.CreateConversation | chat/views.py:24 | creation adds exactly one conversation, under the drawn id and stamped with the clock; an id already in use raises `IntegrityError` and changes nothing |
| Database.Store.CreateMessage | chat/views.py:58-62 | the insert appends exactly one message with the given conversation, question and answer, and no feedback; a missing conversation, a null answer or an id in use raises `IntegrityError` and changes nothing |
| Database.Store.DeleteConversation | chat/models.py:15 | deleting a conversation removes it and, by the cascade, exactly its messages, and keeps the invariant |
| Views.InvalidUuid | chat/views.py:21 | the `ValidationError` for malformed text quotes that text verbatim |
| Views.Find | chat/views.py:21 | the lookup finds the conversation exactly when the text is a UUID of a stored conversation; malformed text raises `ValidationError`; an unknown id responds 404 |
| Views.GetConversation | chat/views.py:18-32 | a non-empty id loads that conversation and changes nothing, with the 404 or exception of the lookup otherwise. An absent or empty id creates exactly one conversation and greets with status 200. Either way the conversation's messages are listed in order |
| Views.PostMessage | chat/views.py:41-70 | missing or empty inputs respond 400 with no request sent and nothing changed; an unknown or malformed id ends the request before the pipeline runs; a pipeline that raises leaves the store unchanged; otherwise exactly one message is added, with the question and the pipeline's answer, and the response carries the conversation id as text |

## Left out

- The remote services are oracles.
  - The Jina HTTP call, the Qdrant query and the OpenAI completion are functions from request to outcome.
  - Their network behaviour, timeouts and retries are not modelled.
  - Embedding vectors are opaque sequences of reals, and the temperature is a constant.
- The constructor's environment reads are inputs.
  - `JINA_API_KEY` is the `Config.jinaApiKey` option, absent when unset.
  - The Qdrant URL and key, and any failure to construct the OpenAI or Qdrant client, are not modelled.
  - The view's `LotrCharactersRag()` is assumed to succeed.
- `__load_prompts` reads two template files. The templates are inputs (`Config`), and a missing or unreadable file is not modelled.
- The `print` in `__search` is not modelled.
- `Rag.Search` takes the limit as a parameter. The default of 5 on `__search` is never used, since its only caller passes 6.
- Rag.Render: a template is already split into literal text and named fields.
  - Brace escaping is not modelled.
  - Neither are format specifications, conversions, or attribute and index lookups inside a field.
  - A positional field is recognised only by ASCII digits.
- Rag.ProjectFrom: payload values are strings or null. A truthy number or list in a payload, which the source would also copy, is not modelled.
- Json.DumpRecords: only string-valued objects are serialised, which is all the projection produces.
- Uuid.Parse: `int(digits, 16)` accepts some strings the model rejects. These include surrounding whitespace, a `+` sign, a `0x` prefix, underscores between digits and non-ASCII digits. Such ids are reported as malformed.
- Views.PostMessage: request values are strings or absent.
  - A JSON number as the conversation id is not modelled. Django would read it with `uuid.UUID(int=...)`.
  - Other non-string JSON values are not modelled either.
- Views.Find: the body of the 404 response is the framework's, and its text is not modelled. Likewise, the server error page for an exception that escapes a view is not modelled.
- Timestamps are ticks of a natural-number clock.
  - The clock advances on every insert.
  - Timestamps are serialised as ticks rather than as ISO 8601 text.
- Models.OrderByCreated: rows with the same `created_at` come back in table order. The database does not promise any order for ties.
- `MessagesLogView` and `MessageFeedbackUpdateView` are framework generic views. Only the serializer rules they use are modelled (`Serializers.SerializeMessage`, `Serializers.UpdateFeedback`). The feedback update view is not routed in `chat/urls.py`.
- Serializers.UpdateFeedback: the declaration of the `feedback` column is not in the source.
  - The model assumes it is optional, so a request without `feedback` changes nothing.
  - With the model as shown, which has no such column, Django REST framework refuses to build the message serializers at all.
- Requests are handled one at a time. Transactions and concurrent requests are not modelled.
- Strings are sequences of Unicode scalar values. Python strings that hold lone surrogates cannot be represented.
- `chat/admin.py` and `chat/urls.py` only register models and route URLs, and are not modelled.
