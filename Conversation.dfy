/** The transcript of the chat page (app/page.tsx): the message record, the
    seed greeting, and the two list updates `handleSend` makes around its
    request to the answering service. */
module Conversation {
  import opened Wrappers

  datatype Role = User | Assistant

  /** The only status a message can carry: an answer is still pending. */
  datatype Status = Thinking

  datatype Message = Message(role: Role, content: Option<string>, status: Option<Status>)

  /** The JSON body posted to /api/query. */
  datatype QueryRequest = QueryRequest(question: string)

  const Greeting: string := "법원판례 챗봇이예요, 궁금한 내용이 있으신가요? \U{1F604}"

  predicate IsThinking(m: Message)
  {
    m.status == Some(Thinking)
  }

  /** The message appended for the text the user submitted. */
  function UserMessage(text: string): Message
  {
    Message(User, Some(text), None)
  }

  /** The assistant entry shown while the answer is pending. */
  function Placeholder(): Message
  {
    Message(Assistant, None, Some(Thinking))
  }

  /** The assistant entry built from `data.answer`, which may be absent. */
  function AnswerMessage(answer: Option<string>): Message
  {
    Message(Assistant, answer, None)
  }

  /** `initialMessages`: the conversation starts with one greeting from the assistant. */
  function InitialMessages(): (r: seq<Message>)
    ensures |r| == 1
    ensures r[0].role == Assistant && r[0].content.Some? && !IsThinking(r[0])
  {
    [Message(Assistant, Some(Greeting), None)]
  }

  /** Number of messages with status `thinking`. */
  function CountThinking(ms: seq<Message>): (n: nat)
    ensures n <= |ms|
    ensures n == 0 <==> forall i | 0 <= i < |ms| :: !IsThinking(ms[i])
  {
    if ms == [] then 0
    else
      assert forall i | 1 <= i < |ms| :: ms[i] == ms[1..][i - 1];
      (if IsThinking(ms[0]) then 1 else 0) + CountThinking(ms[1..])
  }

  lemma {:induction false} CountThinkingAppend(a: seq<Message>, b: seq<Message>)
    ensures CountThinking(a + b) == CountThinking(a) + CountThinking(b)
  {
    if a == [] {
      assert a + b == b;
    } else {
      assert (a + b)[1..] == a[1..] + b;
      CountThinkingAppend(a[1..], b);
    }
  }

  lemma CountThinkingDropLast(s: seq<Message>)
    requires s != []
    ensures CountThinking(s) == CountThinking(DropLast(s)) + (if IsThinking(s[|s| - 1]) then 1 else 0)
  {
    assert s == DropLast(s) + [s[|s| - 1]];
    CountThinkingAppend(DropLast(s), [s[|s| - 1]]);
  }

  /** JavaScript's `slice(0, -1)`: every element but the last; the empty list stays empty. */
  function DropLast(s: seq<Message>): seq<Message>
  {
    if s == [] then [] else s[..|s| - 1]
  }

  /** The list `handleSend` builds before its request: the current messages,
      then the user's message, then a pending placeholder. */
  function Submitted(ms: seq<Message>, text: string): (r: seq<Message>)
    ensures |r| == |ms| + 2
    ensures r[..|ms|] == ms
    ensures r[|ms|] == UserMessage(text) && r[|ms| + 1] == Placeholder()
    ensures CountThinking(r) == CountThinking(ms) + 1
  {
    var added := [UserMessage(text), Placeholder()];
    assert CountThinking(added) == 1 by {
      assert added[1..][1..] == [];
    }
    CountThinkingAppend(ms, added);
    ms + added
  }

  /** The list `handleSend` sets once the answer arrives: the snapshot taken
      at submit time with its last entry replaced by the answer. */
  function Resolved(snapshot: seq<Message>, answer: Option<string>): (r: seq<Message>)
    ensures |r| == if snapshot == [] then 1 else |snapshot|
    ensures r[..|r| - 1] == DropLast(snapshot)
    ensures r[|r| - 1] == AnswerMessage(answer)
    ensures snapshot != [] ==>
              CountThinking(r) + (if IsThinking(snapshot[|snapshot| - 1]) then 1 else 0) == CountThinking(snapshot)
  {
    var kept := DropLast(snapshot);
    CountThinkingAppend(kept, [AnswerMessage(answer)]);
    assert snapshot != [] ==>
             CountThinking(snapshot) == CountThinking(kept) + (if IsThinking(snapshot[|snapshot| - 1]) then 1 else 0) by {
      if snapshot != [] {
        CountThinkingDropLast(snapshot);
      }
    }
    kept + [AnswerMessage(answer)]
  }

  /** A full exchange: the turn adds the user's message and the answer, and
      the number of pending entries is what it was before. */
  lemma {:induction false} SubmitThenResolve(ms: seq<Message>, text: string, answer: Option<string>)
    ensures Resolved(Submitted(ms, text), answer) == ms + [UserMessage(text), AnswerMessage(answer)]
    ensures CountThinking(Resolved(Submitted(ms, text), answer)) == CountThinking(ms)
  {
    var s := Submitted(ms, text);
    var r := Resolved(s, answer);
    assert s[..|s| - 1] == ms + [UserMessage(text)] by {
      assert s[..|ms|] == ms;
    }
    assert r == s[..|s| - 1] + [AnswerMessage(answer)] by {
      assert r[..|r| - 1] == s[..|s| - 1];
    }
  }

  /** Starting from a conversation with nothing pending, submit leaves exactly
      one pending entry, the last one; resolving it leaves none. */
  lemma {:induction false} PlaceholderLifecycle(ms: seq<Message>, text: string, answer: Option<string>)
    requires CountThinking(ms) == 0
    ensures var s := Submitted(ms, text);
              CountThinking(s) == 1 && IsThinking(s[|s| - 1])
              && forall i | 0 <= i < |s| - 1 :: !IsThinking(s[i])
    ensures CountThinking(Resolved(Submitted(ms, text), answer)) == 0
  {
    var s := Submitted(ms, text);
    assert s[..|s| - 1] == ms + [UserMessage(text)] by {
      assert s[..|ms|] == ms;
    }
    CountThinkingAppend(ms, [UserMessage(text)]);
    assert CountThinking(s[..|s| - 1]) == 0;
    forall i | 0 <= i < |s| - 1
      ensures !IsThinking(s[i])
    {
      assert s[i] == s[..|s| - 1][i];
    }
    SubmitThenResolve(ms, text, answer);
  }

  /** The initial conversation has no pending entry. */
  lemma InitialHasNothingPending()
    ensures CountThinking(InitialMessages()) == 0
  {
  }

  /** Two submits before the first answer arrives: the first answer is built
      from its own snapshot, so it discards the second turn, and when the
      second answer arrives the first placeholder comes back and stays pending. */
  lemma {:induction false} OverlappingSendsStrandPlaceholder(
    ms: seq<Message>, first: string, second: string, a1: Option<string>, a2: Option<string>)
    ensures var s1 := Submitted(ms, first);
            var s2 := Submitted(s1, second);
            Resolved(s1, a1) == ms + [UserMessage(first), AnswerMessage(a1)]
            && Resolved(s2, a2) == ms + [UserMessage(first), Placeholder(), UserMessage(second), AnswerMessage(a2)]
            && CountThinking(Resolved(s2, a2)) == CountThinking(ms) + 1
  {
    var s1 := Submitted(ms, first);
    var s2 := Submitted(s1, second);
    SubmitThenResolve(ms, first, a1);
    SubmitThenResolve(s1, second, a2);
    assert s1 == ms + [UserMessage(first), Placeholder()] by {
      assert s1[..|ms|] == ms;
    }
    assert s1 + [UserMessage(second), AnswerMessage(a2)]
        == ms + [UserMessage(first), Placeholder(), UserMessage(second), AnswerMessage(a2)];
    assert CountThinking(Resolved(s2, a2)) == CountThinking(s1);
  }

  /** The page component's `messages` state and the two updates of `handleSend`. */
  class ChatPage {
    var messages: seq<Message>

    constructor ()
      ensures messages == InitialMessages()
    {
      messages := [Message(Assistant, Some(Greeting), None)];
    }

    /** The optimistic update made before the request. Returns the list it
        set (`updatedMessages`, kept by `handleSend` until the answer comes)
        and the request body, which carries only the submitted text. */
    method Submit(text: string) returns (snapshot: seq<Message>, request: QueryRequest)
      modifies this
      ensures messages == Submitted(old(messages), text)
      ensures snapshot == messages
      ensures request == QueryRequest(text)
    {
      snapshot := messages + [UserMessage(text), Placeholder()];
      messages := snapshot;
      request := QueryRequest(text);
    }

    /** The update made when the answer arrives: built from the submit-time
        snapshot, whatever `messages` holds by then. */
    method Resolve(snapshot: seq<Message>, answer: Option<string>)
      modifies this
      ensures messages == Resolved(snapshot, answer)
    {
      messages := DropLast(snapshot) + [AnswerMessage(answer)];
    }
  }

  /** One exchange from a fresh page: greeting, the question, the answer. */
  method HelloExchange()
  {
    var page := new ChatPage();
    var snapshot, request := page.Submit("hello");
    assert request.question == "hello";
    assert page.messages == [InitialMessages()[0], UserMessage("hello"), Placeholder()];
    page.Resolve(snapshot, Some("hi"));
    SubmitThenResolve(InitialMessages(), "hello", Some("hi"));
    assert page.messages == [InitialMessages()[0], UserMessage("hello"), AnswerMessage(Some("hi"))];
  }

  /** A second submit while the first answer is pending: the first answer
      overwrites the list with its own snapshot. */
  method InterleavedExchange()
  {
    var page := new ChatPage();
    var first, _ := page.Submit("a");
    var second, _ := page.Submit("b");
    page.Resolve(first, Some("A"));
    SubmitThenResolve(InitialMessages(), "a", Some("A"));
    assert page.messages == InitialMessages() + [UserMessage("a"), AnswerMessage(Some("A"))];
  }
}
