/** Translating the agent's input items into Claude messages: blocks merged into alternating turns. */
module ClaudeTranslation {
  import opened Text

  /** What one item contributes: content blocks under a role, possibly none. */
  datatype Contribution<B> = Contribution(role: string, blocks: seq<B>)

  datatype Message<B> = Message(role: string, content: seq<B>)

  /** `append_blocks`. */
  function AppendBlocks<B>(messages: seq<Message<B>>, c: Contribution<B>): seq<Message<B>> {
    var n := |messages|;
    if c.blocks == [] then messages
    else if n > 0 && messages[n - 1].role == c.role
    then messages[..n - 1] + [messages[n - 1].(content := messages[n - 1].content + c.blocks)]
    else messages + [Message(c.role, c.blocks)]
  }

  /** The messages for a list of contributions, each a list of blocks under a role. */
  function Merged<B>(contributions: seq<Contribution<B>>): seq<Message<B>> {
    var n := |contributions|;
    if n == 0 then [] else AppendBlocks(Merged(contributions[..n - 1]), contributions[n - 1])
  }

  /** Each block with its role. */
  function Tagged<B>(role: string, blocks: seq<B>): seq<(string, B)> {
    if blocks == [] then [] else [(role, blocks[0])] + Tagged(role, blocks[1..])
  }

  function Contributed<B>(contributions: seq<Contribution<B>>): seq<(string, B)> {
    var n := |contributions|;
    if n == 0 then []
    else Contributed(contributions[..n - 1]) + Tagged(contributions[n - 1].role, contributions[n - 1].blocks)
  }

  function Flattened<B>(messages: seq<Message<B>>): seq<(string, B)> {
    var n := |messages|;
    if n == 0 then [] else Flattened(messages[..n - 1]) + Tagged(messages[n - 1].role, messages[n - 1].content)
  }

  /** No empty message, no two adjacent messages of one role. */
  predicate Alternating<B>(messages: seq<Message<B>>) {
    && (forall i | 0 <= i < |messages| :: messages[i].content != [])
    && (forall i | 0 < i < |messages| :: messages[i - 1].role != messages[i].role)
  }

  lemma {:induction false} TaggedAppend<B>(role: string, a: seq<B>, b: seq<B>)
    ensures Tagged(role, a + b) == Tagged(role, a) + Tagged(role, b)
  {
    if a == [] {
      assert a + b == b;
    } else {
      assert (a + b)[1..] == a[1..] + b;
      TaggedAppend(role, a[1..], b);
    }
  }

  lemma {:induction false} TaggedIs<B>(role: string, blocks: seq<B>)
    ensures |Tagged(role, blocks)| == |blocks|
    ensures forall i | 0 <= i < |blocks| :: Tagged(role, blocks)[i] == (role, blocks[i])
  {
    if blocks != [] { TaggedIs(role, blocks[1..]); }
  }

  lemma AppendKeeps<B>(messages: seq<Message<B>>, c: Contribution<B>)
    requires Alternating(messages)
    ensures Alternating(AppendBlocks(messages, c))
    ensures Flattened(AppendBlocks(messages, c)) == Flattened(messages) + Tagged(c.role, c.blocks)
  {
    var n := |messages|;
    var after := AppendBlocks(messages, c);
    if c.blocks == [] {
      assert Flattened(messages) + [] == Flattened(messages);
    } else if n > 0 && messages[n - 1].role == c.role {
      TaggedAppend(c.role, messages[n - 1].content, c.blocks);
      assert after[..n - 1] == messages[..n - 1];
    } else {
      assert after[..n] == messages;
    }
  }

  lemma {:induction false} MergedKeeps<B>(contributions: seq<Contribution<B>>)
    ensures Alternating(Merged(contributions)) && Flattened(Merged(contributions)) == Contributed(contributions)
  {
    var n := |contributions|;
    if n > 0 {
      MergedKeeps(contributions[..n - 1]);
      AppendKeeps(Merged(contributions[..n - 1]), contributions[n - 1]);
    }
  }

  /** The last message is the longest single-role tail: alternation makes the grouping unique. */
  lemma {:induction false} GroupingIsUnique<B>(a: seq<Message<B>>, b: seq<Message<B>>)
    requires Alternating(a) && Alternating(b) && Flattened(a) == Flattened(b)
    ensures a == b
  {
    if a == [] || b == [] {
      EmptyFlattens(a);
      EmptyFlattens(b);
    } else {
      var m, n := |a| - 1, |b| - 1;
      LastLength(a, b);
      LastLength(b, a);
      var s, t := Flattened(a[..m]), Flattened(b[..n]);
      TaggedIs(a[m].role, a[m].content);
      TaggedIs(b[n].role, b[n].content);
      var whole := Flattened(a);
      assert whole == s + Tagged(a[m].role, a[m].content) == t + Tagged(b[n].role, b[n].content);
      assert |s| == |t| && s == whole[..|s|] == t;
      assert Tagged(a[m].role, a[m].content) == whole[|s|..] == Tagged(b[n].role, b[n].content);
      forall i | 0 <= i < |a[m].content| ensures a[m].role == b[n].role && a[m].content[i] == b[n].content[i] {
        assert Tagged(a[m].role, a[m].content)[i] == Tagged(b[n].role, b[n].content)[i];
      }
      assert a[m].content == b[n].content && a[m].content[0] == b[n].content[0];
      GroupingIsUnique(a[..m], b[..n]);
      assert a == a[..m] + [a[m]] && b == b[..n] + [b[n]];
    }
  }

  lemma EmptyFlattens<B>(a: seq<Message<B>>)
    requires Alternating(a)
    ensures Flattened(a) == [] <==> a == []
  {
    if a != [] {
      TaggedIs(a[|a| - 1].role, a[|a| - 1].content);
    }
  }

  lemma LastLength<B>(a: seq<Message<B>>, b: seq<Message<B>>)
    requires Alternating(a) && Alternating(b) && a != [] && b != [] && Flattened(a) == Flattened(b)
    ensures |a[|a| - 1].content| <= |b[|b| - 1].content|
  {
    var m, n := |a| - 1, |b| - 1;
    var whole := Flattened(a);
    TaggedIs(a[m].role, a[m].content);
    TaggedIs(b[n].role, b[n].content);
    if |a[m].content| > |b[n].content| {
      assert whole[|whole| - 1] == (a[m].role, a[m].content[|a[m].content| - 1]);
      assert whole[|whole| - 1].0 == b[n].role;
      var before := |whole| - |b[n].content| - 1;
      assert whole[before].0 == a[m].role;
      assert whole[before] == Flattened(b[..n])[before];
      LastRole(b[..n]);
    }
  }

  lemma LastRole<B>(a: seq<Message<B>>)
    requires Alternating(a) && Flattened(a) != []
    ensures a != [] && Flattened(a)[|Flattened(a)| - 1].0 == a[|a| - 1].role
  {
    TaggedIs(a[|a| - 1].role, a[|a| - 1].content);
  }

  /**
   * The translation is the one list of messages that alternates, has no empty message and holds the
   * items' blocks, in order, each under its role.
   */
  lemma MergedIsTheGrouping<B>(contributions: seq<Contribution<B>>, messages: seq<Message<B>>)
    ensures messages == Merged(contributions)
       <==> Alternating(messages) && Flattened(messages) == Contributed(contributions)
  {
    MergedKeeps(contributions);
    if Alternating(messages) && Flattened(messages) == Contributed(contributions) {
      GroupingIsUnique(messages, Merged(contributions));
    }
  }

  // ---- the items -----------------------------------------------------------------------------------

  /**
   * The item shapes, holding the blocks their content translates to: a call or an output that does not
   * translate has None, and `Other` is an unsupported type.
   */
  datatype Item<B> =
    | MessageItem(role: Option<string>, blocks: seq<B>)
    | FunctionCall(toolUse: Option<B>)
    | FunctionCallOutput(toolResult: Option<B>)
    | Flat(flatRole: string, flatBlocks: seq<B>)
    | Other

  function Contribute<B>(item: Item<B>): Contribution<B> {
    match item
    case MessageItem(role, blocks) => Contribution(if role.Some? then role.value else "user", blocks)
    case FunctionCall(toolUse) => Contribution("assistant", if toolUse.Some? then [toolUse.value] else [])
    case FunctionCallOutput(toolResult) => Contribution("user", if toolResult.Some? then [toolResult.value] else [])
    case Flat(role, blocks) => Contribution(role, blocks)
    case Other => Contribution("", [])
  }

  function Contributions<B>(items: seq<Item<B>>): (r: seq<Contribution<B>>)
    ensures |r| == |items|
    ensures forall i | 0 <= i < |items| :: r[i] == Contribute(items[i])
  {
    if items == [] then [] else [Contribute(items[0])] + Contributions(items[1..])
  }

  method TranslateInputItems<B>(items: seq<Item<B>>) returns (messages: seq<Message<B>>)
    ensures messages == Merged(Contributions(items))
  {
    messages := [];
    ghost var all := Contributions(items);
    for n := 0 to |items|
      invariant messages == Merged(all[..n])
    {
      assert all[..n + 1][..n] == all[..n] && all[..n + 1][n] == Contribute(items[n]);
      match items[n] {
        case MessageItem(role, blocks) =>
          if blocks != [] { messages := Extend(messages, if role.Some? then role.value else "user", blocks); }
        case FunctionCall(toolUse) =>
          if toolUse.Some? { messages := Extend(messages, "assistant", [toolUse.value]); }
        case FunctionCallOutput(toolResult) =>
          if toolResult.Some? { messages := Extend(messages, "user", [toolResult.value]); }
        case Flat(role, blocks) =>
          if blocks != [] { messages := Extend(messages, role, blocks); }
        case Other =>
      }
    }
    assert all[..|items|] == all;
  }

  method Extend<B>(messages: seq<Message<B>>, role: string, blocks: seq<B>) returns (after: seq<Message<B>>)
    ensures after == AppendBlocks(messages, Contribution(role, blocks))
  {
    after := messages;
    if blocks == [] { return; }
    var n := |after|;
    if n > 0 && after[n - 1].role == role {
      after := after[n - 1 := after[n - 1].(content := after[n - 1].content + blocks)];
      return;
    }
    after := after + [Message(role, blocks)];
  }
}
