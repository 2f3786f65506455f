/** The two tables of the chat application: conversations, and the question and
    answer pairs asked in them. Records are values here; the tables that hold
    them are in `Database`. */
module Models {
  import opened Wrappers
  import opened Uuid

  /** A row of the conversation table. `createdAt` is the tick of the store's
      clock at insertion (`auto_now_add`). */
  datatype Conversation = Conversation(id: Uuid, createdAt: nat)

  /** A row of the message table. `conversation` is the foreign key. `feedback`
      is read and written by the serializers but is not a column of the model;
      it is `None` until set. */
  datatype Message = Message(
    id: Uuid, conversation: Uuid, question: string, answer: string,
    feedback: Option<string>, createdAt: nat)

  const ConversationPrefix: string := "Conversation "

  /** The longest answer prefix a message's text shows. */
  const ExcerptLength: nat := 50

  /** `Conversation.__str__`: the prefix, then the canonical text of the id, which
      reads back as the id. */
  function ConversationStr(c: Conversation): (r: string)
    ensures |r| == |ConversationPrefix| + 36 && r[..|ConversationPrefix|] == ConversationPrefix
    ensures Parse(r[|ConversationPrefix|..]) == Some(c.id)
  {
    ParseToText(c.id);
    var r := ConversationPrefix + ToText(c.id);
    assert r[|ConversationPrefix|..] == ToText(c.id);
    r
  }

  /** Two conversations print alike exactly when they have the same id. */
  lemma ConversationStrInjective(a: Conversation, b: Conversation)
    ensures ConversationStr(a) == ConversationStr(b) <==> a.id == b.id
  {
    if ConversationStr(a) == ConversationStr(b) {
      assert ConversationStr(a)[|ConversationPrefix|..] == ConversationStr(b)[|ConversationPrefix|..];
    }
  }

  /** `answer[:50]`: the answer itself when it is short, else its first 50 characters. */
  function Excerpt(answer: string): (r: string)
    ensures |r| == if |answer| < ExcerptLength then |answer| else ExcerptLength
    ensures r == answer[..|r|]
  {
    if |answer| <= ExcerptLength then answer else answer[..ExcerptLength]
  }

  /** `Message.__str__`: the conversation's id in parentheses, the question, a
      colon and the answer excerpt. Every part can be read back from its place. */
  function MessageStr(m: Message): (r: string)
    ensures var q := |m.question|;
            && |r| == 41 + q + |Excerpt(m.answer)|
            && r[0] == '(' && Parse(r[1..37]) == Some(m.conversation) && r[37..39] == ") "
            && r[39..39 + q] == m.question && r[39 + q..41 + q] == ": "
            && r[41 + q..] == Excerpt(m.answer)
  {
    ParseToText(m.conversation);
    MessageStrParts(ToText(m.conversation), m.question, Excerpt(m.answer));
    "(" + ToText(m.conversation) + ") " + m.question + ": " + Excerpt(m.answer)
  }

  /** Where each part of a message's text sits. */
  lemma MessageStrParts(t: string, q: string, e: string)
    requires |t| == 36
    ensures var r := "(" + t + ") " + q + ": " + e;
            && |r| == 41 + |q| + |e|
            && r[0] == '(' && r[1..37] == t && r[37..39] == ") "
            && r[39..39 + |q|] == q && r[39 + |q|..41 + |q|] == ": " && r[41 + |q|..] == e
  {
    var a := "(" + t;
    var b := a + ") ";
    var c := b + q;
    var d := c + ": ";
    var r := d + e;
    assert a[1..] == t;
    assert r[..|d|] == d && r[|d|..] == e;
    assert d[..|c|] == c && d[|c|..] == ": ";
    assert c[..|b|] == b && c[|b|..] == q;
    assert b[..|a|] == a && b[|a|..] == ") ";
    assert r[1..37] == d[1..37] == c[1..37] == b[1..37] == a[1..37];
    assert r[37..39] == d[37..39] == c[37..39] == b[37..39];
    assert r[39..39 + |q|] == d[39..39 + |q|] == c[39..39 + |q|];
    assert r[39 + |q|..41 + |q|] == d[39 + |q|..41 + |q|];
  }

  // ---------------------------------------------------------------------------
  // `Meta.ordering = ["created_at"]`

  /** Messages in non-decreasing order of creation. */
  predicate CreatedOrdered(ms: seq<Message>) {
    forall i, j :: 0 <= i < j < |ms| ==> ms[i].createdAt <= ms[j].createdAt
  }

  /** `m` placed into a list just before the first message created later than it. */
  function InsertByCreated(m: Message, ms: seq<Message>): (r: seq<Message>)
    ensures multiset(r) == multiset(ms) + multiset{m}
  {
    if ms == [] || m.createdAt < ms[0].createdAt then [m] + ms
    else
      assert ms == [ms[0]] + ms[1..];
      [ms[0]] + InsertByCreated(m, ms[1..])
  }

  /** Inserting into an ordered list keeps it ordered. */
  lemma {:induction false} InsertByCreatedOrdered(m: Message, ms: seq<Message>)
    requires CreatedOrdered(ms)
    ensures CreatedOrdered(InsertByCreated(m, ms))
  {
    if ms != [] && m.createdAt >= ms[0].createdAt {
      var rest := InsertByCreated(m, ms[1..]);
      InsertByCreatedOrdered(m, ms[1..]);
      var r := [ms[0]] + rest;
      forall i, j | 0 <= i < j < |r| ensures r[i].createdAt <= r[j].createdAt {
        assert r[j] == rest[j - 1];
        if i > 0 {
          assert r[i] == rest[i - 1];
        } else {
          assert rest[j - 1] in multiset(ms[1..]) + multiset{m};
          if rest[j - 1] != m {
            var k :| 0 <= k < |ms[1..]| && ms[1..][k] == rest[j - 1];
            assert ms[1 + k] == rest[j - 1];
          }
        }
      }
    }
  }

  /** A query's rows under `ordering = ["created_at"]`: ordered by creation time,
      rows created at the same tick kept in table order. */
  function OrderByCreated(ms: seq<Message>): (r: seq<Message>)
    ensures CreatedOrdered(r)
    ensures multiset(r) == multiset(ms)
  {
    if ms == [] then []
    else
      assert ms == ms[..|ms| - 1] + [ms[|ms| - 1]];
      InsertByCreatedOrdered(ms[|ms| - 1], OrderByCreated(ms[..|ms| - 1]));
      InsertByCreated(ms[|ms| - 1], OrderByCreated(ms[..|ms| - 1]))
  }

  /** A message created no earlier than every message of an ordered list goes last. */
  lemma {:induction false} InsertByCreatedLast(m: Message, ms: seq<Message>)
    requires CreatedOrdered(ms)
    requires forall i :: 0 <= i < |ms| ==> ms[i].createdAt <= m.createdAt
    ensures InsertByCreated(m, ms) == ms + [m]
  {
    if ms != [] {
      InsertByCreatedLast(m, ms[1..]);
    }
  }

  /** Rows already in creation order come back in the same order. */
  lemma {:induction false} OrderByCreatedOrdered(ms: seq<Message>)
    requires CreatedOrdered(ms)
    ensures OrderByCreated(ms) == ms
  {
    if ms != [] {
      var init := ms[..|ms| - 1];
      OrderByCreatedOrdered(init);
      InsertByCreatedLast(ms[|ms| - 1], init);
      assert init + [ms[|ms| - 1]] == ms;
    }
  }

  /** Ordering twice is ordering once. */
  lemma OrderByCreatedIdempotent(ms: seq<Message>)
    ensures OrderByCreated(OrderByCreated(ms)) == OrderByCreated(ms)
  {
    OrderByCreatedOrdered(OrderByCreated(ms));
  }

  // ---------------------------------------------------------------------------
  // The foreign key: `conversation.messages` and `on_delete=CASCADE`

  /** `conversation.messages.all()` before ordering: the messages whose foreign key
      is `conv`, in table order. */
  function Related(ms: seq<Message>, conv: Uuid): (r: seq<Message>)
    ensures |r| <= |ms|
    ensures forall m :: m in r <==> m in ms && m.conversation == conv
  {
    if ms == [] then []
    else if ms[|ms| - 1].conversation == conv then Related(ms[..|ms| - 1], conv) + [ms[|ms| - 1]]
    else Related(ms[..|ms| - 1], conv)
  }

  /** A conversation no message points at has no messages. */
  lemma {:induction false} RelatedNone(ms: seq<Message>, conv: Uuid)
    requires forall i :: 0 <= i < |ms| ==> ms[i].conversation != conv
    ensures Related(ms, conv) == []
  {
    if ms != [] {
      RelatedNone(ms[..|ms| - 1], conv);
    }
  }

  /** The message table after deleting conversation `conv`: its messages go with it. */
  function Cascade(ms: seq<Message>, conv: Uuid): (r: seq<Message>)
    ensures |r| <= |ms|
    ensures forall m :: m in r <==> m in ms && m.conversation != conv
  {
    if ms == [] then []
    else if ms[|ms| - 1].conversation != conv then Cascade(ms[..|ms| - 1], conv) + [ms[|ms| - 1]]
    else Cascade(ms[..|ms| - 1], conv)
  }

  /** Keeping the messages of one conversation preserves creation order. */
  lemma {:induction false} RelatedOrdered(ms: seq<Message>, conv: Uuid)
    requires CreatedOrdered(ms)
    ensures CreatedOrdered(Related(ms, conv))
  {
    if ms != [] {
      var init := ms[..|ms| - 1];
      assert CreatedOrdered(init);
      RelatedOrdered(init, conv);
      var r := Related(ms, conv);
      if ms[|ms| - 1].conversation == conv {
        forall i, j | 0 <= i < j < |r| ensures r[i].createdAt <= r[j].createdAt {
          if j == |r| - 1 {
            assert r[i] in init;
          }
        }
      }
    }
  }

  /** After the cascade, the deleted conversation has no messages and every other
      conversation keeps exactly the messages it had, in the same order. */
  lemma {:induction false} CascadeRelated(ms: seq<Message>, conv: Uuid, other: Uuid)
    ensures Related(Cascade(ms, conv), conv) == []
    ensures other != conv ==> Related(Cascade(ms, conv), other) == Related(ms, other)
  {
    if ms != [] {
      var init := ms[..|ms| - 1];
      var last := ms[|ms| - 1];
      CascadeRelated(init, conv, other);
      if last.conversation != conv {
        assert Cascade(ms, conv)[..|Cascade(ms, conv)| - 1] == Cascade(init, conv);
      }
    }
  }

  /** The message table as the store keeps it: rows in insertion order, each
      created at a later tick than the one before, with distinct ids. */
  predicate Chronological(ms: seq<Message>) {
    forall i, j :: 0 <= i < j < |ms| ==> ms[i].createdAt < ms[j].createdAt && ms[i].id != ms[j].id
  }

  /** The cascade leaves the surviving rows in their order. */
  lemma {:induction false} CascadeChronological(ms: seq<Message>, conv: Uuid)
    requires Chronological(ms)
    ensures Chronological(Cascade(ms, conv))
  {
    if ms != [] {
      var init := ms[..|ms| - 1];
      assert Chronological(init);
      CascadeChronological(init, conv);
      var r := Cascade(ms, conv);
      if ms[|ms| - 1].conversation != conv {
        forall i, j | 0 <= i < j < |r| ensures r[i].createdAt < r[j].createdAt && r[i].id != r[j].id {
          if j == |r| - 1 {
            assert r[i] in init;
            var k :| 0 <= k < |init| && init[k] == r[i];
            assert ms[k] == r[i];
          }
        }
      }
    }
  }
}
