/** The database behind the views: the conversation table keyed by id, the message
    table in insertion order, and the clock that stamps `created_at`. */
module Database {
  import opened Wrappers
  import opened Errors
  import opened Uuid
  import opened Models

  class Store {
    var conversations: map<Uuid, Conversation>
    var messages: seq<Message>
    /** The next `created_at` tick; it only moves forward. */
    var clock: nat

    /** Every conversation is stored under its own id; every message points at a
        stored conversation (the foreign key); message ids are distinct and rows
        are stamped in insertion order, before the clock's current tick. */
    ghost predicate Valid()
      reads this
    {
      && (forall id :: id in conversations ==> conversations[id].id == id && conversations[id].createdAt < clock)
      && (forall i :: 0 <= i < |messages| ==> messages[i].conversation in conversations && messages[i].createdAt < clock)
      && Chronological(messages)
    }

    constructor()
      ensures Valid() && conversations == map[] && messages == [] && clock == 0
    {
      conversations := map[];
      messages := [];
      clock := 0;
    }

    /** The primary keys of the message table. */
    function MessageIds(): set<Uuid>
      reads this
    {
      set i | 0 <= i < |messages| :: messages[i].id
    }

    /** `conversation.messages.all()`: the conversation's messages under the
        model's ordering. */
    function MessagesOf(id: Uuid): (r: seq<Message>)
      reads this
      ensures CreatedOrdered(r)
      ensures forall m :: m in r <==> m in messages && m.conversation == id
    {
      var related := Related(messages, id);
      var r := OrderByCreated(related);
      assert forall m :: m in r <==> m in multiset(r);
      assert forall m :: m in related <==> m in multiset(related);
      r
    }

    /** Rows are stamped in insertion order, so ordering by `created_at` leaves a
        conversation's messages in the order they were inserted. */
    lemma MessagesInInsertionOrder(id: Uuid)
      requires Valid()
      ensures MessagesOf(id) == Related(messages, id)
    {
      assert CreatedOrdered(messages);
      RelatedOrdered(messages, id);
      OrderByCreatedOrdered(Related(messages, id));
    }

    /** `Conversation.objects.create()` with the drawn id `freshId`: the primary key
        must be new. */
    method CreateConversation(freshId: Uuid) returns (r: Result<Conversation, PyError>)
      requires Valid()
      modifies this
      ensures Valid()
      ensures freshId in old(conversations) ==> r == Err(IntegrityError) && unchanged(this)
      ensures freshId !in old(conversations) ==>
                && r == Ok(Conversation(freshId, old(clock)))
                && conversations == old(conversations)[freshId := r.value]
                && messages == old(messages) && clock == old(clock) + 1
    {
      if freshId in conversations {
        return Err(IntegrityError);
      }
      var c := Conversation(freshId, clock);
      conversations := conversations[freshId := c];
      clock := clock + 1;
      return Ok(c);
    }

    /** `Message.objects.create(conversation=..., question=..., answer=...)` with the
        drawn id `freshId`. The database refuses a missing conversation, a null
        answer (the column is `NOT NULL`) and a primary key already in use. */
    method CreateMessage(conv: Uuid, question: string, answer: Option<string>, freshId: Uuid)
      returns (r: Result<Message, PyError>)
      requires Valid()
      modifies this
      ensures Valid()
      ensures conv !in old(conversations) || answer.None? || freshId in old(MessageIds()) ==>
                r == Err(IntegrityError) && unchanged(this)
      ensures conv in old(conversations) && answer.Some? && freshId !in old(MessageIds()) ==>
                && r == Ok(Message(freshId, conv, question, answer.value, None, old(clock)))
                && messages == old(messages) + [r.value]
                && conversations == old(conversations) && clock == old(clock) + 1
    {
      if conv !in conversations || answer.None? || freshId in MessageIds() {
        return Err(IntegrityError);
      }
      var m := Message(freshId, conv, question, answer.value, None, clock);
      forall i | 0 <= i < |messages| ensures messages[i].id != freshId {
        assert messages[i].id in MessageIds();
      }
      messages := messages + [m];
      clock := clock + 1;
      return Ok(m);
    }

    /** `conversation.delete()`: the row goes, and with it, by the cascade, every
        message that points at it. */
    method DeleteConversation(id: Uuid)
      requires Valid()
      modifies this
      ensures Valid()
      ensures conversations == old(conversations) - {id}
      ensures messages == Cascade(old(messages), id) && clock == old(clock)
    {
      CascadeChronological(messages, id);
      var kept := Cascade(messages, id);
      forall i | 0 <= i < |kept| ensures kept[i].conversation in conversations - {id} && kept[i].createdAt < clock {
        assert kept[i] in kept;
        var k :| 0 <= k < |messages| && messages[k] == kept[i];
      }
      conversations := conversations - {id};
      messages := kept;
    }
  }
}
