/** The content-block event machine of the Claude `_consume_stream`. */
module ClaudeBlocks {
  import opened JsonText
  import opened Text

  /** A content block; `kind` is its `type` ("" for the empty placeholder), missing text, id and name are "". */
  datatype Block<J> = Block(kind: string, id: string, name: string, text: string, thinking: string,
                            signature: Option<string>, input: Option<Arguments<J>>)

  datatype DeltaBody =
    | TextDelta(text: string)
    | InputJsonDelta(partial: string)
    | ThinkingDelta(thinking: string)
    | SignatureDelta(signature: Option<string>)
    | OtherDelta

  /** The events after the `error` check and before `message_stop`; a non-integer index is None. */
  datatype Event<J> =
    | MessageStart(id: string, usage: map<string, int>)
    | BlockStart(index: Option<nat>, block: Block<J>)
    | BlockDelta(index: Option<nat>, delta: DeltaBody)
    | BlockStop(index: Option<nat>)
    | MessageDelta(usage: map<string, int>)
    | Ignored

  function Placeholder<J>(): Block<J> {
    Block("", "", "", "", "", None, None)
  }

  // ---- what each position holds after a history of events ---------------------

  predicate StartsAt<J>(e: Event<J>, i: nat) {
    e.BlockStart? && e.index == Some(i)
  }

  /** One more than the highest index started so far: the length of `blocks`. */
  function High<J>(h: seq<Event<J>>): nat {
    if h == [] then 0 else HighStep(High(h[..|h| - 1]), h[|h| - 1])
  }

  function HighStep<J>(before: nat, e: Event<J>): nat {
    if e.BlockStart? && e.index.Some? && e.index.value >= before then e.index.value + 1 else before
  }

  /** A block with its buffered tool-input text, when it has any. */
  datatype View<J> = View(block: Block<J>, buffer: Option<string>)

  function Buffered<J>(v: View<J>): string {
    if v.buffer.Some? then v.buffer.value else ""
  }

  function ApplyDelta<J>(v: View<J>, d: DeltaBody): View<J> {
    match d
    case TextDelta(text) => v.(block := v.block.(text := v.block.text + text))
    case InputJsonDelta(partial) => v.(buffer := Some(Buffered(v) + partial))
    case ThinkingDelta(thinking) => v.(block := v.block.(thinking := v.block.thinking + thinking))
    case SignatureDelta(signature) => v.(block := v.block.(signature := signature))
    case OtherDelta => v
  }

  function ApplyStop<J>(json: Json<J>, v: View<J>): View<J> {
    if v.block.kind != "tool_use" then v
    else View(v.block.(input := Some(Decode(json, Buffered(v)))), None)
  }

  function SlotStep<J>(json: Json<J>, v: Option<View<J>>, e: Event<J>, i: nat): Option<View<J>> {
    match e
    case BlockStart(Some(j), block) =>
      if j == i then
        Some(View(block, if block.kind == "tool_use" then Some("") else if v.Some? then v.value.buffer else None))
      else if j > i && v.None? then Some(View(Placeholder(), None))
      else v
    case BlockDelta(Some(j), delta) => if j == i && v.Some? then Some(ApplyDelta(v.value, delta)) else v
    case BlockStop(Some(j)) => if j == i && v.Some? then Some(ApplyStop(json, v.value)) else v
    case _ => v
  }

  /** Position `i` after `h`; None while the list is not that long. */
  function Slot<J>(json: Json<J>, h: seq<Event<J>>, i: nat): Option<View<J>> {
    if h == [] then None else SlotStep(json, Slot(json, h[..|h| - 1], i), h[|h| - 1], i)
  }

  /** The text deltas that reached an existing position, in order. */
  function AcceptedText<J>(h: seq<Event<J>>): string {
    if h == [] then ""
    else
      var e, before := h[|h| - 1], h[..|h| - 1];
      AcceptedText(before)
      + (if e.BlockDelta? && e.index.Some? && e.index.value < High(before) && e.delta.TextDelta?
         then e.delta.text else "")
  }

  function LastId<J>(h: seq<Event<J>>): string {
    if h == [] then ""
    else
      var e := h[|h| - 1];
      if e.MessageStart? && e.id != "" then e.id else LastId(h[..|h| - 1])
  }

  function Usage<J>(h: seq<Event<J>>): map<string, int> {
    if h == [] then map[]
    else
      var e := h[|h| - 1];
      Usage(h[..|h| - 1]) + (if e.MessageStart? || e.MessageDelta? then e.usage else map[])
  }

  lemma {:induction false} SlotIffBelowHigh<J>(json: Json<J>, h: seq<Event<J>>, i: nat)
    ensures Slot(json, h, i).Some? <==> i < High(h)
  {
    if h != [] {
      SlotIffBelowHigh(json, h[..|h| - 1], i);
    }
  }

  lemma SlotGrows<J>(json: Json<J>, h: seq<Event<J>>, e: Event<J>, i: nat)
    ensures Slot(json, h + [e], i) == SlotStep(json, Slot(json, h, i), e, i)
  {
    assert (h + [e])[..|h|] == h;
  }

  lemma SummaryGrows<J>(h: seq<Event<J>>, e: Event<J>)
    ensures High(h + [e]) == HighStep(High(h), e)
    ensures LastId(h + [e]) == if e.MessageStart? && e.id != "" then e.id else LastId(h)
    ensures Usage(h + [e]) == if e.MessageStart? || e.MessageDelta? then Usage(h) + e.usage else Usage(h)
    ensures AcceptedText(h + [e])
         == if e.BlockDelta? && e.index.Some? && e.index.value < High(h) && e.delta.TextDelta?
            then AcceptedText(h) + e.delta.text else AcceptedText(h)
  {
    assert (h + [e])[..|h|] == h;
    assert AcceptedText(h) + "" == AcceptedText(h) && Usage(h) + map[] == Usage(h);
  }

  // ---- the accumulator ----------------------------------------------------------

  class Accumulator<J> {
    const json: Json<J>
    var blocks: seq<Block<J>>
    var toolInputBuffers: map<nat, string>
    var outputText: string
    var messageId: string
    var usage: map<string, int>
    ghost var history: seq<Event<J>>

    ghost predicate Holds(i: nat, v: Option<View<J>>)
      reads this
    {
      && (v.Some? <==> i < |blocks|)
      && (v.Some? ==> blocks[i] == v.value.block && BufferAt(i) == v.value.buffer)
      && (v == None ==> BufferAt(i) == None)
    }

    ghost function BufferAt(i: nat): Option<string>
      reads this
    {
      if i in toolInputBuffers then Some(toolInputBuffers[i]) else None
    }

    ghost predicate Valid()
      reads this
    {
      && |blocks| == High(history)
      && (forall i: nat :: Holds(i, Slot(json, history, i)))
      && outputText == AcceptedText(history)
      && messageId == LastId(history)
      && usage == Usage(history)
    }

    constructor (json: Json<J>)
      ensures Valid() && history == [] && this.json == json
    {
      this.json := json;
      blocks, toolInputBuffers, outputText, messageId, usage := [], map[], "", "", map[];
      history := [];
    }

    method Absorb(e: Event<J>)
      requires Valid()
      modifies this
      ensures Valid() && history == old(history) + [e]
    {
      match e {
        case BlockStart(Some(index), block) => AbsorbStart(index, block);
        case BlockDelta(Some(index), delta) => AbsorbDelta(index, delta);
        case BlockStop(Some(index)) => AbsorbStop(index);
        case _ => AbsorbMessageEvent(e);
      }
    }

    predicate ForBlock(e: Event<J>) {
      (e.BlockStart? || e.BlockDelta? || e.BlockStop?) && e.index.Some?
    }

    method AbsorbMessageEvent(e: Event<J>)
      requires Valid() && !ForBlock(e)
      modifies this`messageId, this`usage, this`history
      ensures Valid() && history == old(history) + [e]
    {
      ghost var h := history;
      history := history + [e];
      forall i: nat ensures Slot(json, history, i) == Slot(json, h, i) {
        SlotGrows(json, h, e, i);
      }
      SummaryGrows(h, e);
      match e {
        case MessageStart(id, u) =>
          messageId := if id != "" then id else messageId;
          usage := usage + u;
        case MessageDelta(u) =>
          usage := usage + u;
        case _ =>
      }
    }

    method AbsorbStart(index: nat, block: Block<J>)
      requires Valid()
      modifies this
      ensures Valid() && history == old(history) + [BlockStart(Some(index), block)]
    {
      ghost var h, e := history, BlockStart(Some(index), block);
      history := history + [e];
      forall i: nat ensures Slot(json, history, i) == SlotStep(json, Slot(json, h, i), e, i) {
        SlotGrows(json, h, e, i);
      }
      SummaryGrows(h, e);
      StartBlock(index, block);
    }

    method AbsorbDelta(index: nat, delta: DeltaBody)
      requires Valid()
      modifies this
      ensures Valid() && history == old(history) + [BlockDelta(Some(index), delta)]
    {
      ghost var h, e := history, BlockDelta(Some(index), delta);
      history := history + [e];
      forall i: nat ensures Slot(json, history, i) == SlotStep(json, Slot(json, h, i), e, i) {
        SlotGrows(json, h, e, i);
      }
      SummaryGrows(h, e);
      if index < |blocks| { ChangeBlock(index, delta); }
    }

    method AbsorbStop(index: nat)
      requires Valid()
      modifies this
      ensures Valid() && history == old(history) + [BlockStop(Some(index))]
    {
      ghost var h, e := history, BlockStop(Some(index));
      history := history + [e];
      forall i: nat ensures Slot(json, history, i) == SlotStep(json, Slot(json, h, i), e, i) {
        SlotGrows(json, h, e, i);
      }
      SummaryGrows(h, e);
      if index < |blocks| && blocks[index].kind == "tool_use" { StopBlock(index); }
    }

    method StartBlock(index: nat, block: Block<J>)
      modifies this`blocks, this`toolInputBuffers
      ensures |blocks| == if index < |old(blocks)| then |old(blocks)| else index + 1
      ensures blocks[index] == block
      ensures forall i | 0 <= i < |blocks| && i != index ::
                blocks[i] == if i < |old(blocks)| then old(blocks)[i] else Placeholder()
      ensures toolInputBuffers == if block.kind == "tool_use" then old(toolInputBuffers)[index := ""]
                                  else old(toolInputBuffers)
    {
      while |blocks| <= index
        invariant toolInputBuffers == old(toolInputBuffers)
        invariant |old(blocks)| <= |blocks|
        invariant |blocks| <= index + 1 || |blocks| == |old(blocks)|
        invariant forall i | 0 <= i < |blocks| ::
                    blocks[i] == if i < |old(blocks)| then old(blocks)[i] else Placeholder()
        decreases index + 1 - |blocks|
      {
        blocks := blocks + [Placeholder()];
      }
      blocks := blocks[index := block];
      if block.kind == "tool_use" {
        toolInputBuffers := toolInputBuffers[index := ""];
      }
    }

    method ChangeBlock(index: nat, delta: DeltaBody)
      requires index < |blocks|
      modifies this`blocks, this`toolInputBuffers, this`outputText
      ensures outputText == if delta.TextDelta? then old(outputText) + delta.text else old(outputText)
      ensures |blocks| == |old(blocks)|
      ensures View(blocks[index], BufferAt(index)) == ApplyDelta(View(old(blocks)[index], old(BufferAt(index))), delta)
      ensures forall i | 0 <= i < |blocks| && i != index :: blocks[i] == old(blocks)[i]
      ensures forall i: nat | i != index :: BufferAt(i) == old(BufferAt(i))
    {
      match delta {
        case TextDelta(text) =>
          outputText := outputText + text;
          blocks := blocks[index := blocks[index].(text := blocks[index].text + text)];
        case InputJsonDelta(partial) =>
          var existing := if index in toolInputBuffers then toolInputBuffers[index] else "";
          toolInputBuffers := toolInputBuffers[index := existing + partial];
        case ThinkingDelta(thinking) =>
          blocks := blocks[index := blocks[index].(thinking := blocks[index].thinking + thinking)];
        case SignatureDelta(signature) =>
          blocks := blocks[index := blocks[index].(signature := signature)];
        case OtherDelta =>
      }
    }

    method StopBlock(index: nat)
      requires index < |blocks| && blocks[index].kind == "tool_use"
      modifies this`blocks, this`toolInputBuffers
      ensures |blocks| == |old(blocks)|
      ensures View(blocks[index], BufferAt(index)) == ApplyStop(json, View(old(blocks)[index], old(BufferAt(index))))
      ensures BufferAt(index) == None && blocks[index].input.Some?
      ensures StandsFor(json, if old(BufferAt(index)).Some? then old(BufferAt(index)).value else "",
                        blocks[index].input.value)
      ensures forall i | 0 <= i < |blocks| && i != index :: blocks[i] == old(blocks)[i]
      ensures forall i: nat | i != index :: BufferAt(i) == old(BufferAt(i))
    {
      var raw := if index in toolInputBuffers then toolInputBuffers[index] else "";
      DecodeStandsFor(json, raw);
      toolInputBuffers := toolInputBuffers - {index};
      blocks := blocks[index := blocks[index].(input := Some(Decode(json, raw)))];
    }
  }

  // ---- independence of the other indices ------------------------------------------

  predicate Concerns<J>(e: Event<J>, i: nat) {
    (e.BlockStart? || e.BlockDelta? || e.BlockStop?) && e.index == Some(i)
  }

  function Own<J>(h: seq<Event<J>>, i: nat): seq<Event<J>> {
    if h == [] then []
    else
      var before := Own(h[..|h| - 1], i);
      if Concerns(h[|h| - 1], i) then before + [h[|h| - 1]] else before
  }

  predicate Started<J>(own: seq<Event<J>>, i: nat) {
    exists k | 0 <= k < |own| :: StartsAt(own[k], i)
  }

  /** Two views that no later event of the same index can tell apart by the block. */
  ghost predicate SameBlock<J>(a: Option<View<J>>, b: Option<View<J>>) {
    && a.Some? && b.Some? && a.value.block == b.value.block
    && (a.value.block.kind == "tool_use" ==> a.value.buffer == b.value.buffer)
  }

  lemma {:induction false} StartedIsOwn<J>(json: Json<J>, h: seq<Event<J>>, i: nat)
    requires Started(Own(h, i), i)
    ensures SameBlock(Slot(json, h, i), Slot(json, Own(h, i), i))
  {
    var n := |h| - 1;
    var e := h[n];
    var own := Own(h, i);
    if Concerns(e, i) {
      assert own[..|own| - 1] == Own(h[..n], i);
      if !StartsAt(e, i) {
        var k :| 0 <= k < |own| && StartsAt(own[k], i);
        assert Own(h[..n], i)[k] == own[k];
        StartedIsOwn(json, h[..n], i);
      }
    } else {
      StartedIsOwn(json, h[..n], i);
    }
  }

  /** Once started, a block depends on the events of its own index alone, in their order. */
  lemma BlockIgnoresOtherIndices<J>(json: Json<J>, a: seq<Event<J>>, b: seq<Event<J>>, i: nat)
    requires Own(a, i) == Own(b, i) && Started(Own(a, i), i)
    ensures Slot(json, a, i).Some? && Slot(json, b, i).Some?
    ensures Slot(json, a, i).value.block == Slot(json, b, i).value.block
  {
    StartedIsOwn(json, a, i);
    StartedIsOwn(json, b, i);
  }

  function TextPart<J>(e: Event<J>): string {
    if e.BlockDelta? && e.delta.TextDelta? then e.delta.text else ""
  }

  function JsonPart<J>(e: Event<J>): string {
    if e.BlockDelta? && e.delta.InputJsonDelta? then e.delta.partial else ""
  }

  function Texts<J>(es: seq<Event<J>>): string {
    if es == [] then "" else Texts(es[..|es| - 1]) + TextPart(es[|es| - 1])
  }

  function Partials<J>(es: seq<Event<J>>): string {
    if es == [] then "" else Partials(es[..|es| - 1]) + JsonPart(es[|es| - 1])
  }

  ghost predicate DeltasAt<J>(es: seq<Event<J>>, i: nat) {
    forall k | 0 <= k < |es| :: es[k].BlockDelta? && es[k].index == Some(i)
  }

  /** What no delta of a block touches. */
  ghost predicate SameHead<J>(a: Block<J>, b: Block<J>) {
    a.kind == b.kind && a.id == b.id && a.name == b.name && a.input == b.input
  }

  lemma DeltaParts<J>(json: Json<J>, v: View<J>, e: Event<J>, i: nat)
    requires e.BlockDelta? && e.index == Some(i)
    ensures var w := SlotStep(json, Some(v), e, i);
            && w.Some? && SameHead(w.value.block, v.block)
            && w.value.block.text == v.block.text + TextPart(e)
            && Buffered(w.value) == Buffered(v) + JsonPart(e)
  {
    assert v.block.text + "" == v.block.text && Buffered(v) + "" == Buffered(v);
  }

  /** A block started as `block` that has taken the deltas `es`. */
  ghost predicate Replayed<J>(v: Option<View<J>>, block: Block<J>, es: seq<Event<J>>) {
    && v.Some? && SameHead(v.value.block, block)
    && v.value.block.text == block.text + Texts(es)
    && Buffered(v.value) == Partials(es)
  }

  lemma ReplayStep<J>(json: Json<J>, v: Option<View<J>>, block: Block<J>, es: seq<Event<J>>, e: Event<J>, i: nat)
    requires Replayed(v, block, es) && e.BlockDelta? && e.index == Some(i)
    ensures Replayed(SlotStep(json, v, e, i), block, es + [e])
  {
    assert (es + [e])[..|es|] == es;
    DeltaParts(json, v.value, e, i);
    assert (block.text + Texts(es)) + TextPart(e) == block.text + (Texts(es) + TextPart(e));
  }

  lemma ReplayStart<J>(json: Json<J>, i: nat, block: Block<J>)
    ensures Replayed(Slot(json, [BlockStart(Some(i), block)], i), block, [])
  {
    var start: Event<J> := BlockStart(Some(i), block);
    assert [start] == [] + [start];
    SlotGrows(json, [], start, i);
    assert block.text + "" == block.text;
  }

  lemma {:induction false} ReplayDeltas<J>(json: Json<J>, i: nat, block: Block<J>, es: seq<Event<J>>)
    requires DeltasAt(es, i)
    ensures Replayed(Slot(json, [BlockStart(Some(i), block)] + es, i), block, es)
  {
    var start: Event<J> := BlockStart(Some(i), block);
    if es == [] {
      assert [start] + es == [start];
      ReplayStart(json, i, block);
    } else {
      var n := |es| - 1;
      var before := [start] + es[..n];
      assert [start] + es == before + [es[n]] && es == es[..n] + [es[n]];
      SlotGrows(json, before, es[n], i);
      ReplayDeltas(json, i, block, es[..n]);
      ReplayStep(json, Slot(json, before, i), block, es[..n], es[n], i);
    }
  }

  /**
   * Whatever other indices do meanwhile, a block that was started, filled and stopped holds the
   * in-order concatenation of its text deltas, and a tool call its id, its name and what its joined
   * fragments stand for.
   */
  lemma CompletedBlock<J>(json: Json<J>, h: seq<Event<J>>, i: nat, block: Block<J>, es: seq<Event<J>>)
    requires DeltasAt(es, i)
    requires Own(h, i) == [BlockStart(Some(i), block)] + es + [BlockStop(Some(i))]
    ensures var v := Slot(json, h, i);
            && v.Some? && v.value.block.text == block.text + Texts(es)
            && v.value.block.kind == block.kind && v.value.block.id == block.id && v.value.block.name == block.name
            && (block.kind == "tool_use"
                ==> v.value.block.input.Some? && StandsFor(json, Partials(es), v.value.block.input.value))
            && (block.kind != "tool_use" ==> v.value.block.input == block.input)
  {
    DecodeStandsFor(json, Partials(es));
    var own := Own(h, i);
    assert StartsAt(own[0], i);
    StartedIsOwn(json, h, i);
    ReplayDeltas(json, i, block, es);
    SlotGrows(json, [BlockStart(Some(i), block)] + es, BlockStop(Some(i)), i);
  }

  function BlockAt<J>(json: Json<J>, h: seq<Event<J>>, i: nat): Option<Block<J>> {
    if Slot(json, h, i).Some? then Some(Slot(json, h, i).value.block) else None
  }

  /** All histories with these events of index `i` leave the same block there. */
  ghost predicate Determines<J(!new)>(json: Json<J>, own: seq<Event<J>>, i: nat) {
    forall a: seq<Event<J>>, b: seq<Event<J>> | Own(a, i) == own && Own(b, i) == own ::
      BlockAt(json, a, i) == BlockAt(json, b, i)
  }

  lemma {:induction false} OwnIsOwn<J>(own: seq<Event<J>>, i: nat)
    requires forall k | 0 <= k < |own| :: Concerns(own[k], i)
    ensures Own(own, i) == own
  {
    if own != [] {
      OwnIsOwn(own[..|own| - 1], i);
      assert own == own[..|own| - 1] + [own[|own| - 1]];
    }
  }

  lemma {:induction false} UnstartedStaysEmpty<J>(json: Json<J>, own: seq<Event<J>>, i: nat)
    requires forall k | 0 <= k < |own| :: Concerns(own[k], i)
    requires !Started(own, i)
    ensures Slot(json, own, i) == None
  {
    if own != [] {
      var n := |own| - 1;
      assert !StartsAt(own[n], i);
      assert forall k | 0 <= k < n :: own[..n][k] == own[k];
      UnstartedStaysEmpty(json, own[..n], i);
    }
  }

  /**
   * The events of an index determine its block exactly when they hold a start of it: without one, a later
   * start of the next index makes a placeholder appear.
   */
  lemma StartDecides<J(!new)>(json: Json<J>, own: seq<Event<J>>, i: nat, block: Block<J>)
    requires forall k | 0 <= k < |own| :: Concerns(own[k], i)
    ensures Determines(json, own, i) <==> Started(own, i)
  {
    if Started(own, i) {
      forall a: seq<Event<J>>, b: seq<Event<J>> | Own(a, i) == own && Own(b, i) == own
        ensures BlockAt(json, a, i) == BlockAt(json, b, i)
      {
        BlockIgnoresOtherIndices(json, a, b, i);
      }
    } else {
      var next: Event<J> := BlockStart(Some(i + 1), block);
      var more := own + [next];
      OwnIsOwn(own, i);
      assert more[..|more| - 1] == own;
      UnstartedStaysEmpty(json, own, i);
      SlotGrows(json, own, next, i);
      assert Own(more, i) == own && BlockAt(json, own, i) != BlockAt(json, more, i);
    }
  }

  /** A position that is only padded holds a block without a type, so neither a call nor text. */
  lemma PaddingIsBare<J>(json: Json<J>, h: seq<Event<J>>, j: nat, block: Block<J>, i: nat)
    requires High(h) <= i < j
    ensures var v := Slot(json, h + [BlockStart(Some(j), block)], i);
            && v.Some? && v.value.buffer == None
            && v.value.block == Block("", "", "", "", "", None, None)
  {
    SlotIffBelowHigh(json, h, i);
    SlotGrows(json, h, BlockStart(Some(j), block), i);
  }

  // ---- the output text --------------------------------------------------------------

  function AllText<J>(h: seq<Event<J>>): string {
    if h == [] then ""
    else
      var e := h[|h| - 1];
      AllText(h[..|h| - 1]) + (if e.BlockDelta? && e.index.Some? && e.delta.TextDelta? then e.delta.text else "")
  }

  /** Every text delta that carries text comes after a start of its index or of a higher one. */
  ghost predicate NoLateStart<J>(h: seq<Event<J>>) {
    forall k | 0 <= k < |h| :: Lands(h, k)
  }

  predicate Lands<J>(h: seq<Event<J>>, k: nat)
    requires k < |h|
  {
    h[k].BlockDelta? && h[k].index.Some? && h[k].delta.TextDelta? && h[k].delta.text != ""
    ==> h[k].index.value < High(h[..k])
  }

  lemma {:induction false} AcceptedIsShorter<J>(h: seq<Event<J>>)
    ensures |AcceptedText(h)| <= |AllText(h)|
    ensures |AcceptedText(h)| == |AllText(h)| ==> AcceptedText(h) == AllText(h) && NoLateStart(h)
  {
    if h != [] {
      var n := |h| - 1;
      AcceptedIsShorter(h[..n]);
      if |AcceptedText(h)| == |AllText(h)| {
        assert Lands(h, n);
        forall k | 0 <= k < n ensures Lands(h, k) {
          assert Lands(h[..n], k) && h[..n][..k] == h[..k];
        }
      }
    }
  }

  /** The output text is the concatenation of all text deltas exactly when none came too early. */
  lemma {:induction false} OutputTextIsAllText<J>(h: seq<Event<J>>)
    ensures AcceptedText(h) == AllText(h) <==> NoLateStart(h)
  {
    AcceptedIsShorter(h);
    if NoLateStart(h) && h != [] {
      var n := |h| - 1;
      forall k | 0 <= k < n ensures Lands(h[..n], k) {
        assert Lands(h, k) && h[..n][..k] == h[..k];
      }
      OutputTextIsAllText(h[..n]);
      assert Lands(h, n);
    }
  }
}
