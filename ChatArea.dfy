/** `ChatArea` of components/chatarea.tsx: one bubble per message, chosen by
    role and status. Assistant text goes to the markdown renderer; user text
    is shown as it is. */
module ChatArea {
  import opened Wrappers
  import opened Conversation

  datatype Bubble =
    | LoadingIndicator
    | AssistantBubble(markdown: string)
    | UserBubble(text: Option<string>)

  /** The branch taken for one message. */
  function RenderMessage(m: Message): (b: Bubble)
    ensures b == LoadingIndicator <==> m.role == Assistant && IsThinking(m)
    ensures b.AssistantBubble? <==> m.role == Assistant && !IsThinking(m)
    ensures b.AssistantBubble? ==> b.markdown == (if m.content.Some? then m.content.value else "")
    ensures b.UserBubble? <==> m.role == User
    ensures b.UserBubble? ==> b.text == m.content
  {
    match m.role
    case Assistant => if m.status == Some(Thinking) then LoadingIndicator else AssistantBubble(m.content.GetOr(""))
    case User => UserBubble(m.content)
  }

  /** `messages.map(...)`: one bubble per message, in order. */
  function RenderTranscript(ms: seq<Message>): (bs: seq<Bubble>)
    ensures |bs| == |ms|
    ensures forall i | 0 <= i < |ms| :: bs[i] == RenderMessage(ms[i])
  {
    if ms == [] then [] else [RenderMessage(ms[0])] + RenderTranscript(ms[1..])
  }

  lemma RenderTranscriptAppend(a: seq<Message>, b: seq<Message>)
    ensures RenderTranscript(a + b) == RenderTranscript(a) + RenderTranscript(b)
  {
    var l, r := RenderTranscript(a + b), RenderTranscript(a) + RenderTranscript(b);
    forall i | 0 <= i < |a + b|
      ensures l[i] == r[i]
    {
      if i < |a| {
        assert (a + b)[i] == a[i];
      } else {
        assert (a + b)[i] == b[i - |a|];
      }
    }
  }

  /** Right after submit the transcript shows what it showed before, the
      user's text, and the loading indicator. */
  lemma {:induction false} RenderAfterSubmit(ms: seq<Message>, text: string)
    ensures RenderTranscript(Submitted(ms, text))
         == RenderTranscript(ms) + [UserBubble(Some(text)), LoadingIndicator]
  {
    var s := Submitted(ms, text);
    assert s == ms + [UserMessage(text), Placeholder()] by {
      assert s[..|ms|] == ms;
    }
    RenderTranscriptAppend(ms, [UserMessage(text), Placeholder()]);
  }

  /** Once answered, the loading indicator is replaced by the answer's
      markdown, or by empty markdown when the answer is absent. */
  lemma {:induction false} RenderAfterResolve(ms: seq<Message>, text: string, answer: Option<string>)
    ensures RenderTranscript(Resolved(Submitted(ms, text), answer))
         == RenderTranscript(ms) + [UserBubble(Some(text)), AssistantBubble(answer.GetOr(""))]
  {
    SubmitThenResolve(ms, text, answer);
    RenderTranscriptAppend(ms, [UserMessage(text), AnswerMessage(answer)]);
  }

  /** A conversation with nothing pending shows no loading indicator. */
  lemma NothingPendingNoIndicator(ms: seq<Message>)
    requires CountThinking(ms) == 0
    ensures forall i | 0 <= i < |ms| :: RenderTranscript(ms)[i] != LoadingIndicator
  {
  }
}
