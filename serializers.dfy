/** The REST representations of the two tables: which fields each serializer
    shows, which it lets a request write, and the one field-level validation. */
module Serializers {
  import opened Wrappers
  import opened Uuid
  import opened Models

  /** `MessageSerializer.Meta.fields`, in output order. */
  const MessageFields: seq<string> := ["id", "question", "answer", "feedback", "created_at"]

  /** `MessageFeedbackSerializer.Meta.fields`. */
  const FeedbackFields: seq<string> := ["feedback"]

  /** `ConversationSerializer.Meta.fields`, in output order. */
  const ConversationFields: seq<string> := ["id", "created_at", "messages"]

  /** The message fields a request can never write: the primary key is declared
      `editable=False` and `created_at` is filled by `auto_now_add`. */
  const MessageReadOnly: set<string> := {"id", "created_at"}

  /** The conversation fields a request can never write: `created_at` is filled by
      `auto_now_add`, and the nested messages are declared `read_only=True`. */
  const ConversationReadOnly: set<string> := {"created_at", "messages"}

  const FeedbackChoices: seq<string> := ["GOOD", "BAD"]

  const FeedbackError: string := "Feedback must be either 'GOOD' or 'BAD'"

  /** `MessageFeedbackSerializer.validate_feedback`: the value itself when it is one
      of the two choices, a validation error otherwise. */
  function ValidateFeedback(value: string): (r: Result<string, string>)
    ensures r.Ok? <==> value == "GOOD" || value == "BAD"
    ensures r.Ok? ==> r.value == value
    ensures r.Err? ==> r.error == FeedbackError
  {
    if value in FeedbackChoices then Ok(value) else Err(FeedbackError)
  }

  /** The fields of `fields` a request may write, in declaration order. */
  function Writable(fields: seq<string>, readOnly: set<string>): (r: seq<string>)
    ensures |r| <= |fields|
    ensures forall f :: f in r <==> f in fields && f !in readOnly
  {
    if fields == [] then []
    else if fields[0] in readOnly then Writable(fields[1..], readOnly)
    else [fields[0]] + Writable(fields[1..], readOnly)
  }

  /** The feedback serializer writes `feedback` and nothing else. */
  lemma FeedbackWritable()
    ensures Writable(FeedbackFields, MessageReadOnly) == ["feedback"]
  {
    assert FeedbackFields[1..] == [];
  }

  /** The conversation serializer writes only the id: the nested messages cannot be
      written through it. */
  lemma ConversationWritable()
    ensures Writable(ConversationFields, ConversationReadOnly) == ["id"]
    ensures "messages" !in Writable(ConversationFields, ConversationReadOnly)
  {
    assert ConversationFields[1..][1..][1..] == [];
  }

  /** Writing the string `v` into the message field named `f`; names that are not
      writable columns of a message leave it as it is. */
  function SetField(m: Message, f: string, v: string): Message {
    if f == "question" then m.(question := v)
    else if f == "answer" then m.(answer := v)
    else if f == "feedback" then m.(feedback := Some(v))
    else m
  }

  /** `serializer.save()` of validated data: each of `fields` the request carries is
      written; every column not among `fields` keeps its value. */
  function Apply(m: Message, fields: seq<string>, data: map<string, string>): (r: Message)
    ensures r.id == m.id && r.conversation == m.conversation && r.createdAt == m.createdAt
    ensures "question" !in fields ==> r.question == m.question
    ensures "answer" !in fields ==> r.answer == m.answer
    ensures "feedback" !in fields ==> r.feedback == m.feedback
    decreases |fields|
  {
    if fields == [] then m
    else
      var f := fields[0];
      var n := if f in data then SetField(m, f, data[f]) else m;
      Apply(n, fields[1..], data)
  }

  /** A `PUT` through `MessageFeedbackSerializer`: the feedback is validated, then
      only the writable fields of the serializer are saved. A request without
      `feedback` changes nothing, as the field is optional. */
  function UpdateFeedback(m: Message, data: map<string, string>): (r: Result<Message, string>)
    ensures r.Ok? <==> "feedback" !in data || data["feedback"] in FeedbackChoices
    ensures r.Err? ==> r.error == FeedbackError
    ensures r.Ok? ==> r.value.(feedback := m.feedback) == m
    ensures r.Ok? ==> r.value.feedback == if "feedback" in data then Some(data["feedback"]) else m.feedback
  {
    FeedbackWritable();
    ApplyFeedback(m, data);
    if "feedback" in data && ValidateFeedback(data["feedback"]).Err? then Err(FeedbackError)
    else Ok(Apply(m, Writable(FeedbackFields, MessageReadOnly), data))
  }

  /** Saving the feedback field alone sets the feedback the request carries. */
  lemma ApplyFeedback(m: Message, data: map<string, string>)
    ensures Apply(m, ["feedback"], data) == if "feedback" in data then m.(feedback := Some(data["feedback"])) else m
  {
    var n := if "feedback" in data then SetField(m, "feedback", data["feedback"]) else m;
    assert ["feedback"][1..] == [];
    assert Apply(m, ["feedback"], data) == Apply(n, [], data);
  }

  // ---------------------------------------------------------------------------
  // Output

  /** A serialised field value. Timestamps stay clock ticks. */
  datatype Field = Text(s: string) | Null | Timestamp(tick: nat) | Items(items: seq<Data>)

  /** A serialised record: field names and values in output order. */
  type Data = seq<(string, Field)>

  function Keys(d: Data): (ks: seq<string>)
    ensures |ks| == |d| && forall i :: 0 <= i < |d| ==> ks[i] == d[i].0
  {
    seq(|d|, i requires 0 <= i < |d| => d[i].0)
  }

  /** The value `MessageSerializer` shows for field `f`. */
  function MessageValue(m: Message, f: string): Field {
    if f == "id" then Text(ToText(m.id))
    else if f == "question" then Text(m.question)
    else if f == "answer" then Text(m.answer)
    else if f == "feedback" then (if m.feedback.Some? then Text(m.feedback.value) else Null)
    else Timestamp(m.createdAt)
  }

  /** `MessageSerializer(m).data`: exactly the declared fields, in declared order. */
  function SerializeMessage(m: Message): (d: Data)
    ensures Keys(d) == MessageFields
  {
    seq(|MessageFields|, i requires 0 <= i < |MessageFields| => (MessageFields[i], MessageValue(m, MessageFields[i])))
  }

  /** The serialised message determines the message, all but its conversation,
      which the representation leaves out. */
  lemma SerializeMessageInjective(a: Message, b: Message)
    ensures SerializeMessage(a) == SerializeMessage(b) <==> a.(conversation := b.conversation) == b
  {
    if SerializeMessage(a) == SerializeMessage(b) {
      assert SerializeMessage(a)[0] == SerializeMessage(b)[0];
      ToTextInjective(a.id, b.id);
      assert SerializeMessage(a)[1] == SerializeMessage(b)[1];
      assert SerializeMessage(a)[2] == SerializeMessage(b)[2];
      assert SerializeMessage(a)[3] == SerializeMessage(b)[3];
      assert SerializeMessage(a)[4] == SerializeMessage(b)[4];
    }
  }

  /** The value `ConversationSerializer` shows for field `f`; `messages` lists the
      conversation's messages in the order given. */
  function ConversationValue(c: Conversation, messages: seq<Message>, f: string): Field {
    if f == "id" then Text(ToText(c.id))
    else if f == "created_at" then Timestamp(c.createdAt)
    else Items(seq(|messages|, i requires 0 <= i < |messages| => SerializeMessage(messages[i])))
  }

  /** `ConversationSerializer(c).data`, given the related messages. */
  function SerializeConversation(c: Conversation, messages: seq<Message>): (d: Data)
    ensures Keys(d) == ConversationFields
  {
    seq(|ConversationFields|, i requires 0 <= i < |ConversationFields| =>
      (ConversationFields[i], ConversationValue(c, messages, ConversationFields[i])))
  }

  /** The serialised conversation determines the conversation, and lists one
      serialised message per related message, in order. */
  lemma SerializeConversationShape(c: Conversation, messages: seq<Message>)
    ensures var d := SerializeConversation(c, messages);
            && Parse(d[0].1.s) == Some(c.id)
            && d[1].1 == Timestamp(c.createdAt)
            && d[2].1.Items? && |d[2].1.items| == |messages|
            && forall i :: 0 <= i < |messages| ==> d[2].1.items[i] == SerializeMessage(messages[i])
  {
    ParseToText(c.id);
  }
}
