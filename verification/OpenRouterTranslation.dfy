/** Translating the agent's input items into Chat Completions messages: tool calls grouped by runs. */
module OpenRouterTranslation {
  import opened Text

  datatype Content = NoContent | Words(text: string) | Parts(parts: seq<string>)

  datatype ToolCall = ToolCall(id: string, name: string, arguments: string)

  /** The item shapes; a call carries its arguments as text, and `Other` is an unsupported type. */
  datatype Item =
    | MessageItem(role: Option<string>, content: Content)
    | FunctionCall(call: ToolCall, callContent: Option<string>)
    | FunctionCallOutput(callId: string, output: Option<Content>)
    | Flat(flatRole: string, flatContent: Content)
    | Other

  datatype Message =
    | Plain(role: string, content: Content)
    | ToolResult(callId: string, output: Content)
    | ToolCalls(text: Option<string>, calls: seq<ToolCall>)

  /** The translation of content blocks. */
  type Codec = Content -> Content

  /** Items in translated form: a message of its own, or one call. */
  datatype Element = Whole(message: Message) | Call(call: ToolCall, text: Option<string>)

  function ElementOf(codec: Codec, item: Item): Option<Element> {
    match item
    case MessageItem(role, content) =>
      Some(Whole(Plain(if role.Some? then role.value else "user", codec(content))))
    case FunctionCall(call, text) => Some(Call(call, text))
    case FunctionCallOutput(callId, output) =>
      Some(Whole(ToolResult(callId, if output.Some? then output.value else Words(""))))
    case Flat(role, content) => Some(Whole(Plain(role, content)))
    case Other => None
  }

  function Elements(codec: Codec, items: seq<Item>): (r: seq<Element>)
    ensures forall i | 0 <= i < |r| && r[i].Whole? :: !r[i].message.ToolCalls?
  {
    var n := |items|;
    if n == 0 then []
    else
      Elements(codec, items[..n - 1]) + Optional(ElementOf(codec, items[n - 1]))
  }

  function Optional(e: Option<Element>): seq<Element> {
    if e.Some? then [e.value] else []
  }

  /** An element with its place in a run of calls: `First` opens the run and brings its text. */
  datatype Mark = Alone(message: Message) | First(call: ToolCall, text: Option<string>) | Later(call: ToolCall)

  function MarkAt(elements: seq<Element>, i: nat): Mark
    requires i < |elements|
  {
    match elements[i]
    case Whole(message) => Alone(message)
    case Call(call, text) => if i > 0 && elements[i - 1].Call? then Later(call) else First(call, text)
  }

  function Marked(elements: seq<Element>): (r: seq<Mark>)
    ensures |r| == |elements|
  {
    var n := |elements|;
    if n == 0 then [] else Marked(elements[..n - 1]) + [MarkAt(elements, n - 1)]
  }

  /** Reading messages back: every call of a group, the first one with the group's text. */
  function Expanded(messages: seq<Message>): seq<Mark> {
    var n := |messages|;
    if n == 0 then []
    else
      Expanded(messages[..n - 1]) + Marks(messages[n - 1])
  }

  function Marks(message: Message): seq<Mark> {
    match message
    case ToolCalls(text, calls) => GroupMarks(text, calls)
    case other => [Alone(other)]
  }

  function GroupMarks(text: Option<string>, calls: seq<ToolCall>): (r: seq<Mark>)
    ensures |r| == |calls|
  {
    var n := |calls|;
    if n == 0 then []
    else GroupMarks(text, calls[..n - 1]) + [if n == 1 then First(calls[0], text) else Later(calls[n - 1])]
  }

  /** No group is empty. */
  predicate Grouped(messages: seq<Message>) {
    forall i | 0 <= i < |messages| && messages[i].ToolCalls? :: messages[i].calls != []
  }

  /** Append one mark to finished messages; None when a later call has no group to join. */
  function Put(messages: seq<Message>, mark: Mark): Option<seq<Message>> {
    var n := |messages|;
    match mark
    case Alone(message) => Some(messages + [message])
    case First(call, text) => Some(messages + [ToolCalls(text, [call])])
    case Later(call) =>
      if n > 0 && messages[n - 1].ToolCalls?
      then Some(messages[..n - 1] + [messages[n - 1].(calls := messages[n - 1].calls + [call])])
      else None
  }

  /** The messages without their last call, or without their last message. */
  function Shortened(messages: seq<Message>): seq<Message>
    requires messages != []
  {
    var n := |messages|;
    match messages[n - 1]
    case ToolCalls(text, calls) =>
      if |calls| > 1 then messages[..n - 1] + [ToolCalls(text, calls[..|calls| - 1])] else messages[..n - 1]
    case other => messages[..n - 1]
  }

  lemma ExpandedStep(messages: seq<Message>, last: Message)
    ensures Expanded(messages + [last]) == Expanded(messages) + Marks(last)
  {
    assert (messages + [last])[..|messages|] == messages;
  }

  lemma GroupStep(text: Option<string>, calls: seq<ToolCall>, call: ToolCall)
    ensures GroupMarks(text, calls + [call])
         == GroupMarks(text, calls) + [if calls == [] then First(call, text) else Later(call)]
  {
    assert (calls + [call])[..|calls|] == calls;
  }

  lemma PutFirst(messages: seq<Message>, call: ToolCall, text: Option<string>)
    ensures Expanded(messages + [ToolCalls(text, [call])]) == Expanded(messages) + [First(call, text)]
  {
    ExpandedStep(messages, ToolCalls(text, [call]));
    GroupStep(text, [], call);
    assert [] + [call] == [call] && GroupMarks(text, []) == [];
  }

  lemma PutLater(rest: seq<Message>, text: Option<string>, calls: seq<ToolCall>, call: ToolCall)
    requires calls != []
    ensures Expanded(rest + [ToolCalls(text, calls + [call])])
         == Expanded(rest + [ToolCalls(text, calls)]) + [Later(call)]
  {
    GroupStep(text, calls, call);
    ExpandedStep(rest, ToolCalls(text, calls + [call]));
    ExpandedStep(rest, ToolCalls(text, calls));
  }

  lemma PutExpands(messages: seq<Message>, mark: Mark)
    requires Grouped(messages) && Put(messages, mark).Some?
    requires mark.Alone? ==> !mark.message.ToolCalls?
    ensures var after := Put(messages, mark).value;
            Grouped(after) && Expanded(after) == Expanded(messages) + [mark]
  {
    var n := |messages|;
    match mark {
      case Alone(message) => ExpandedStep(messages, message);
      case First(call, text) => PutFirst(messages, call, text);
      case Later(call) =>
        var rest, last := messages[..n - 1], messages[n - 1];
        assert messages == rest + [ToolCalls(last.text, last.calls)];
        PutLater(rest, last.text, last.calls, call);
    }
  }

  lemma ShortenedGroup(rest: seq<Message>, text: Option<string>, calls: seq<ToolCall>)
    requires Grouped(rest) && calls != []
    ensures var messages := rest + [ToolCalls(text, calls)];
            var e := Expanded(messages);
            && e != []
            && Grouped(Shortened(messages))
            && Expanded(Shortened(messages)) == e[..|e| - 1]
            && Put(Shortened(messages), e[|e| - 1]) == Some(messages)
  {
    var k := |calls| - 1;
    var messages := rest + [ToolCalls(text, calls)];
    assert messages[..|rest|] == rest && calls == calls[..k] + [calls[k]];
    GroupStep(text, calls[..k], calls[k]);
    ExpandedStep(rest, ToolCalls(text, calls));
    if k > 0 {
      var shorter := rest + [ToolCalls(text, calls[..k])];
      ExpandedStep(rest, ToolCalls(text, calls[..k]));
      assert Shortened(messages) == shorter && shorter[..|rest|] == rest;
    } else {
      assert Shortened(messages) == rest && GroupMarks(text, calls[..k]) == [];
    }
  }

  lemma ShortenedExpands(messages: seq<Message>)
    requires Grouped(messages) && messages != []
    ensures var e := Expanded(messages);
            && e != []
            && Grouped(Shortened(messages))
            && Expanded(Shortened(messages)) == e[..|e| - 1]
            && Put(Shortened(messages), e[|e| - 1]) == Some(messages)
  {
    var n := |messages|;
    assert messages == messages[..n - 1] + [messages[n - 1]];
    if messages[n - 1].ToolCalls? {
      ShortenedGroup(messages[..n - 1], messages[n - 1].text, messages[n - 1].calls);
    }
  }

  /** Grouped messages are determined by what they expand to. */
  lemma {:induction false} GroupingIsUnique(a: seq<Message>, b: seq<Message>)
    requires Grouped(a) && Grouped(b) && Expanded(a) == Expanded(b)
    ensures a == b
    decreases |Expanded(a)|
  {
    if a != [] { ShortenedExpands(a); }
    if b != [] { ShortenedExpands(b); }
    if a != [] && b != [] {
      GroupingIsUnique(Shortened(a), Shortened(b));
    }
  }

  // ---- the loop ------------------------------------------------------------------------------------

  /** The finished messages with the pending group closed. */
  function Flushed(messages: seq<Message>, pending: seq<ToolCall>, text: Option<string>): seq<Message> {
    if pending == [] then messages else messages + [ToolCalls(text, pending)]
  }

  ghost predicate Progress(elements: seq<Element>, messages: seq<Message>, pending: seq<ToolCall>,
                                 text: Option<string>)
  {
    && (pending != [] <==> elements != [] && elements[|elements| - 1].Call?)
    && (pending == [] ==> text == None)
    && Grouped(Flushed(messages, pending, text))
    && Expanded(Flushed(messages, pending, text)) == Marked(elements)
  }

  lemma MarkedStep(elements: seq<Element>, e: Element)
    ensures Marked(elements + [e]) == Marked(elements) + [MarkAt(elements + [e], |elements|)]
  {
    assert (elements + [e])[..|elements|] == elements;
  }

  lemma {:induction false} MarkedIs(elements: seq<Element>, i: nat)
    requires i < |elements|
    ensures Marked(elements)[i] == MarkAt(elements, i)
  {
    var n := |elements|;
    if i < n - 1 {
      MarkedIs(elements[..n - 1], i);
    }
  }

  lemma WholeStep(elements: seq<Element>, m: Message, messages: seq<Message>, pending: seq<ToolCall>,
                        text: Option<string>)
    requires Progress(elements, messages, pending, text) && !m.ToolCalls?
    ensures Progress(elements + [Whole(m)], Flushed(messages, pending, text) + [m], [], None)
  {
    MarkedStep(elements, Whole(m));
    PutExpands(Flushed(messages, pending, text), Alone(m));
  }

  lemma CallStep(elements: seq<Element>, call: ToolCall, itemText: Option<string>, messages: seq<Message>,
                       pending: seq<ToolCall>, text: Option<string>)
    requires Progress(elements, messages, pending, text)
    ensures Progress(elements + [Call(call, itemText)], messages, pending + [call],
                     if pending == [] then itemText else text)
  {
    MarkedStep(elements, Call(call, itemText));
    var before := Flushed(messages, pending, text);
    if pending == [] {
      PutExpands(before, First(call, itemText));
      assert pending + [call] == [call];
    } else {
      PutExpands(before, Later(call));
      assert before[..|before| - 1] == messages;
    }
  }

  lemma ElementsStep(codec: Codec, items: seq<Item>, n: nat)
    requires n < |items|
    ensures Elements(codec, items[..n + 1]) == Elements(codec, items[..n]) + Optional(ElementOf(codec, items[n]))
  {
    assert items[..n + 1][..n] == items[..n];
  }

  lemma Finish(elements: seq<Element>, messages: seq<Message>, pending: seq<ToolCall>, text: Option<string>)
    requires Progress(elements, messages, pending, text)
    ensures Grouped(Flushed(messages, pending, text)) && Expanded(Flushed(messages, pending, text)) == Marked(elements)
    ensures pending == [] ==> text == None
  {
  }

  method TranslateInputItems(codec: Codec, items: seq<Item>) returns (messages: seq<Message>)
    ensures Grouped(messages) && Expanded(messages) == Marked(Elements(codec, items))
  {
    messages := [];
    var pending: seq<ToolCall> := [];
    var text := None;
    for n := 0 to |items|
      invariant Progress(Elements(codec, items[..n]), messages, pending, text)
    {
      ElementsStep(codec, items, n);
      messages, pending, text := TranslateItem(codec, items[n], messages, pending, text, Elements(codec, items[..n]));
    }
    assert items[..|items|] == items;
    Finish(Elements(codec, items), messages, pending, text);
    messages := Flush(messages, pending, text);
  }

  /** One pass of the loop; `done` is what the earlier items amount to. */
  method TranslateItem(codec: Codec, item: Item, messages: seq<Message>, pending: seq<ToolCall>, text: Option<string>,
                       ghost done: seq<Element>)
    returns (messages': seq<Message>, pending': seq<ToolCall>, text': Option<string>)
    requires Progress(done, messages, pending, text)
    ensures Progress(done + Optional(ElementOf(codec, item)), messages', pending', text')
  {
    messages', pending', text' := messages, pending, text;
    match item {
      case MessageItem(role, content) =>
        var said := Plain(if role.Some? then role.value else "user", codec(content));
        messages' := FlushAndAppend(messages, pending, text, said, done);
        pending', text' := [], None;
      case FunctionCall(call, itemText) =>
        CallStep(done, call, itemText, messages, pending, text);
        Finish(done, messages, pending, text);
        if pending == [] && itemText.Some? { text' := itemText; }
        pending' := pending + [call];
      case FunctionCallOutput(callId, output) =>
        var answer := ToolResult(callId, if output.Some? then output.value else Words(""));
        messages' := FlushAndAppend(messages, pending, text, answer, done);
        pending', text' := [], None;
      case Flat(role, content) =>
        messages' := FlushAndAppend(messages, pending, text, Plain(role, content), done);
        pending', text' := [], None;
      case Other =>
        assert done + [] == done;
    }
  }

  method FlushAndAppend(messages: seq<Message>, pending: seq<ToolCall>, text: Option<string>, m: Message,
                        ghost done: seq<Element>)
    returns (after: seq<Message>)
    requires Progress(done, messages, pending, text) && !m.ToolCalls?
    ensures Progress(done + [Whole(m)], after, [], None)
  {
    WholeStep(done, m, messages, pending, text);
    after := Flush(messages, pending, text);
    after := after + [m];
  }

  method Flush(messages: seq<Message>, pending: seq<ToolCall>, text: Option<string>)
    returns (after: seq<Message>)
    ensures after == Flushed(messages, pending, text)
  {
    if pending == [] { return messages; }
    after := messages + [ToolCalls(text, pending)];
  }

  // ---- what the grouping means -------------------------------------------------------------------------

  function CallsOf(elements: seq<Element>): seq<ToolCall> {
    var n := |elements|;
    if n == 0 then []
    else CallsOf(elements[..n - 1]) + (if elements[n - 1].Call? then [elements[n - 1].call] else [])
  }

  function GroupedCalls(messages: seq<Message>): seq<ToolCall> {
    var n := |messages|;
    if n == 0 then []
    else GroupedCalls(messages[..n - 1]) + (if messages[n - 1].ToolCalls? then messages[n - 1].calls else [])
  }

  function MarkedCalls(marks: seq<Mark>): seq<ToolCall> {
    var n := |marks|;
    if n == 0 then []
    else MarkedCalls(marks[..n - 1]) + (if marks[n - 1].Alone? then [] else [marks[n - 1].call])
  }

  lemma {:induction false} MarkedCallsOf(elements: seq<Element>)
    ensures MarkedCalls(Marked(elements)) == CallsOf(elements)
  {
    var n := |elements|;
    if n > 0 {
      MarkedCallsOf(elements[..n - 1]);
      assert elements == elements[..n - 1] + [elements[n - 1]];
      MarkedStep(elements[..n - 1], elements[n - 1]);
      assert Marked(elements)[..n - 1] == Marked(elements[..n - 1]);
    }
  }

  lemma {:induction false} MarkedCallsAppend(a: seq<Mark>, b: seq<Mark>)
    ensures MarkedCalls(a + b) == MarkedCalls(a) + MarkedCalls(b)
    decreases |b|
  {
    if b == [] {
      assert a + b == a;
    } else {
      assert (a + b)[..|a + b| - 1] == a + b[..|b| - 1];
      MarkedCallsAppend(a, b[..|b| - 1]);
    }
  }

  lemma {:induction false} GroupMarksCalls(text: Option<string>, calls: seq<ToolCall>)
    ensures MarkedCalls(GroupMarks(text, calls)) == calls
  {
    var n := |calls|;
    if n > 0 {
      GroupMarksCalls(text, calls[..n - 1]);
      var marks := GroupMarks(text, calls);
      assert marks[..n - 1] == GroupMarks(text, calls[..n - 1]);
      assert calls == calls[..n - 1] + [calls[n - 1]];
    }
  }

  lemma {:induction false} ExpandedCalls(messages: seq<Message>)
    ensures MarkedCalls(Expanded(messages)) == GroupedCalls(messages)
  {
    var n := |messages|;
    if n > 0 {
      ExpandedCalls(messages[..n - 1]);
      match messages[n - 1] {
        case ToolCalls(text, calls) =>
          GroupMarksCalls(text, calls);
          MarkedCallsAppend(Expanded(messages[..n - 1]), GroupMarks(text, calls));
        case other =>
          MarkedCallsAppend(Expanded(messages[..n - 1]), [Alone(other)]);
          assert [Alone(other)][..0] == [];
      }
    }
  }

  /** Every call is carried exactly once, in order. */
  lemma EveryCallOnce(codec: Codec, items: seq<Item>, messages: seq<Message>)
    requires Expanded(messages) == Marked(Elements(codec, items))
    ensures GroupedCalls(messages) == CallsOf(Elements(codec, items))
  {
    ExpandedCalls(messages);
    MarkedCallsOf(Elements(codec, items));
  }

  lemma ExpandedFront(messages: seq<Message>)
    requires messages != []
    ensures Expanded(messages[..|messages| - 1]) <= Expanded(messages)
  {
  }

  lemma {:induction false} ExpandedPrefix(messages: seq<Message>, k: nat)
    requires k <= |messages|
    ensures Expanded(messages[..k]) <= Expanded(messages)
  {
    var n := |messages|;
    if k < n {
      var front := messages[..n - 1];
      ExpandedPrefix(front, k);
      ExpandedFront(messages);
      assert front[..k] == messages[..k];
      PrefixOfPrefix(Expanded(messages[..k]), Expanded(front), Expanded(messages));
    } else {
      assert messages[..k] == messages;
    }
  }

  lemma PrefixOfPrefix<T>(a: seq<T>, b: seq<T>, c: seq<T>)
    requires a <= b && b <= c
    ensures a <= c
  {
  }

  lemma {:induction false} GroupShape(text: Option<string>, calls: seq<ToolCall>)
    requires calls != []
    ensures GroupMarks(text, calls)[0] == First(calls[0], text)
    ensures !GroupMarks(text, calls)[|calls| - 1].Alone?
  {
    var n := |calls|;
    if n > 1 { GroupShape(text, calls[..n - 1]); }
  }

  lemma AdjacentGroups(messages: seq<Message>, i: nat)
    requires Grouped(messages) && i + 1 < |messages| && messages[i].ToolCalls? && messages[i + 1].ToolCalls?
    ensures exists n :: 0 < n < |Expanded(messages)| && !Expanded(messages)[n - 1].Alone? && Expanded(messages)[n].First?
  {
    var front, both := messages[..i + 1], messages[..i + 2];
    assert both == front + [messages[i + 1]];
    LastOfGroup(front);
    FirstOfGroup(front, messages[i + 1]);
    ExpandedPrefix(messages, i + 2);
    var n := |Expanded(front)|;
    assert Expanded(messages)[n - 1] == Expanded(both)[n - 1] && Expanded(messages)[n] == Expanded(both)[n];
  }

  /** Groups are maximal: two tool-call messages are never adjacent. */
  lemma GroupsAreMaximal(elements: seq<Element>, messages: seq<Message>, i: nat)
    requires Grouped(messages) && Expanded(messages) == Marked(elements)
    requires i + 1 < |messages| && messages[i].ToolCalls?
    ensures !messages[i + 1].ToolCalls?
  {
    if messages[i + 1].ToolCalls? {
      AdjacentGroups(messages, i);
      var n :| 0 < n < |Expanded(messages)| && !Expanded(messages)[n - 1].Alone? && Expanded(messages)[n].First?;
      NoFirstAfterCall(elements, Expanded(messages), n);
    }
  }

  lemma NoFirstAfterCall(elements: seq<Element>, marks: seq<Mark>, i: nat)
    requires marks == Marked(elements) && 0 < i < |marks| && !marks[i - 1].Alone?
    ensures !marks[i].First?
  {
    MarkedIs(elements, i);
    MarkedIs(elements, i - 1);
  }

  lemma LastOfGroup(messages: seq<Message>)
    requires messages != []
    requires var last := messages[|messages| - 1]; last.ToolCalls? && last.calls != []
    ensures var e := Expanded(messages); e != [] && !e[|e| - 1].Alone?
  {
    var last := messages[|messages| - 1];
    GroupShape(last.text, last.calls);
  }

  lemma FirstOfGroup(messages: seq<Message>, group: Message)
    requires group.ToolCalls? && group.calls != []
    ensures var e, n := Expanded(messages + [group]), |Expanded(messages)|;
            n < |e| && e[n].First? && e[..n] == Expanded(messages)
  {
    ExpandedStep(messages, group);
    GroupShape(group.text, group.calls);
  }
}
