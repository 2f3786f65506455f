/** The two request handlers of the chat application, as operations on the store.
    A handler either responds with a status and a body or raises; an exception
    that escapes a handler becomes a server error (500). */
module Views {
  import opened Wrappers
  import opened Errors
  import opened Uuid
  import opened Models
  import opened Serializers
  import opened Database
  import Rag

  datatype Body =
      /** `{"data": <conversation>, "message": ...}` */
    | ConversationBody(data: Data, message: string)
      /** `{"conversation_id": ..., "data": <message>}` */
    | MessageBody(conversationId: string, data: Data)
      /** `{"error": ...}` */
    | ErrorBody(error: string)
      /** The framework's body for `Http404`. */
    | NotFound

  datatype Outcome = Respond(status: int, body: Body) | Raise(error: PyError)

  const WelcomeMessage: string := "Ask any question about characters of Lord of the Rings!"
  const LoadedPrefix: string := "Successfully loaded conversation with id: "
  const RequiredError: string := "conversation_id and question are required"

  /** Python truthiness of a request value: present and not empty. */
  predicate Given(v: Option<string>) {
    v.Some? && v.value != ""
  }

  /** What a `UUIDField` lookup raises for a value that is not a UUID. */
  function InvalidUuid(value: string): (e: PyError)
    ensures e.ValidationError? && |e.message| == |value| + 23
    ensures e.message[1..|value| + 1] == value
  {
    ValidationError("\U{201C}" + value + "\U{201D} is not a valid UUID.")
  }

  /** `get_object_or_404(Conversation, id=value)`, without changing anything: the
      conversation, or the 404 response or the exception the lookup ends in. */
  function Find(conversations: map<Uuid, Conversation>, value: string): (r: Result<Conversation, Outcome>)
    ensures r.Ok? <==> Parse(value).Some? && Parse(value).value in conversations
    ensures r.Ok? ==> r.value == conversations[Parse(value).value]
    ensures Parse(value).None? ==> r == Err(Raise(InvalidUuid(value)))
    ensures Parse(value).Some? && Parse(value).value !in conversations ==> r == Err(Respond(404, NotFound))
  {
    match Parse(value)
    case None => Err(Raise(InvalidUuid(value)))
    case Some(id) => if id in conversations then Ok(conversations[id]) else Err(Respond(404, NotFound))
  }

  /** `ConversationView.get`: a non-empty `conversation_id` loads that conversation
      and changes nothing; otherwise exactly one conversation is created, under the
      drawn id `freshId`, and greeted. Either way the conversation is serialised
      with its messages in order. */
  method GetConversation(store: Store, conversationId: Option<string>, freshId: Uuid) returns (out: Outcome)
    requires store.Valid()
    modifies store
    ensures store.Valid()
    ensures Given(conversationId) ==>
              && unchanged(store)
              && var found := Find(store.conversations, conversationId.value);
                 && (found.Err? ==> out == found.error)
                 && (found.Ok? ==> out == Respond(200, ConversationBody(
                       SerializeConversation(found.value, store.MessagesOf(found.value.id)),
                       LoadedPrefix + conversationId.value)))
    ensures !Given(conversationId) && freshId in old(store.conversations) ==>
              out == Raise(IntegrityError) && unchanged(store)
    ensures !Given(conversationId) && freshId !in old(store.conversations) ==>
              var c := Conversation(freshId, old(store.clock));
              && store.conversations == old(store.conversations)[freshId := c]
              && store.messages == old(store.messages) && store.clock == old(store.clock) + 1
              && out == Respond(200, ConversationBody(SerializeConversation(c, []), WelcomeMessage))
  {
    var conversation: Conversation;
    var message: string;
    if Given(conversationId) {
      var found := Find(store.conversations, conversationId.value);
      if found.Err? {
        return found.error;
      }
      conversation := found.value;
      message := LoadedPrefix + conversationId.value;
    } else {
      var created := store.CreateConversation(freshId);
      if created.Err? {
        return Raise(created.error);
      }
      conversation := created.value;
      message := WelcomeMessage;
      RelatedNone(store.messages, freshId);
    }
    store.MessagesInInsertionOrder(conversation.id);
    out := Respond(200, ConversationBody(SerializeConversation(conversation, store.MessagesOf(conversation.id)), message));
  }

  /** `MessageView.post`: both inputs must be given (400, before anything else);
      the conversation must exist (the lookup's 404 or exception, before the
      pipeline runs); then the pipeline answers the question and exactly one
      message is inserted, under the drawn id `freshId`. A pipeline that raises,
      or an insert the database refuses, leaves the store as it was. */
  method PostMessage(store: Store, cfg: Rag.Config, svc: Rag.Services,
                     conversationId: Option<string>, question: Option<string>, freshId: Uuid)
    returns (out: Outcome, calls: seq<Rag.Call>)
    requires store.Valid()
    modifies store
    ensures store.Valid()
    ensures !Given(conversationId) || !Given(question) ==>
              out == Respond(400, ErrorBody(RequiredError)) && calls == [] && unchanged(store)
    ensures Given(conversationId) && Given(question) && Find(old(store.conversations), conversationId.value).Err? ==>
              out == Find(old(store.conversations), conversationId.value).error && calls == [] && unchanged(store)
    ensures Given(conversationId) && Given(question) && Find(old(store.conversations), conversationId.value).Ok? ==>
              var conv := Find(old(store.conversations), conversationId.value).value;
              var (answer, pipelineCalls) := Rag.Answer(cfg, svc, question.value);
              && calls == pipelineCalls
              && (answer.Err? ==> out == Raise(answer.error) && unchanged(store))
              && (answer.Ok? && (answer.value.None? || freshId in old(store.MessageIds())) ==>
                    out == Raise(IntegrityError) && unchanged(store))
              && (answer.Ok? && answer.value.Some? && freshId !in old(store.MessageIds()) ==>
                    var m := Message(freshId, conv.id, question.value, answer.value.value, None, old(store.clock));
                    && store.messages == old(store.messages) + [m]
                    && store.conversations == old(store.conversations)
                    && store.clock == old(store.clock) + 1
                    && out == Respond(200, MessageBody(ToText(conv.id), SerializeMessage(m))))
  {
    if !Given(conversationId) || !Given(question) {
      return Respond(400, ErrorBody(RequiredError)), [];
    }
    var found := Find(store.conversations, conversationId.value);
    if found.Err? {
      return found.error, [];
    }
    var conversation := found.value;
    var answer;
    answer, calls := Rag.AnswerLotr(cfg, svc, question.value);
    if answer.Err? {
      return Raise(answer.error), calls;
    }
    var saved := store.CreateMessage(conversation.id, question.value, answer.value, freshId);
    if saved.Err? {
      return Raise(saved.error), calls;
    }
    out := Respond(200, MessageBody(ToText(conversation.id), SerializeMessage(saved.value)));
  }
}
