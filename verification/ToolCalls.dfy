/** `reconstruct_tool_calls`: rebuilding complete tool calls from streamed fragments. */
module ToolCalls {
  import opened JsonText
  import opened Text

  /** One entry of `delta["tool_calls"]`; an empty id or name is the same as a missing one. */
  datatype ToolDelta = ToolDelta(index: Option<int>, id: string, name: string, arguments: Option<string>)

  datatype Slot = Slot(id: string, name: string, arguments: string)

  /** `callId` is None when the stream carried no id and the client synthesises one. */
  datatype ToolCall<J> = ToolCall(callId: Option<string>, name: string, arguments: Arguments<J>)

  function Flatten(deltas: seq<seq<ToolDelta>>): seq<ToolDelta> {
    if deltas == [] then [] else deltas[0] + Flatten(deltas[1..])
  }

  // ---- the closed form: each index looks only at its own fragments ----------

  function Own(fragments: seq<ToolDelta>, i: int): seq<ToolDelta> {
    if fragments == [] then []
    else if fragments[0].index == Some(i) then [fragments[0]] + Own(fragments[1..], i)
    else Own(fragments[1..], i)
  }

  function FirstId(own: seq<ToolDelta>): string {
    if own == [] then "" else if own[0].id != "" then own[0].id else FirstId(own[1..])
  }

  function FirstName(own: seq<ToolDelta>): string {
    if own == [] then "" else if own[0].name != "" then own[0].name else FirstName(own[1..])
  }

  function ArgumentText(own: seq<ToolDelta>): string {
    if own == [] then ""
    else (if own[0].arguments.Some? then own[0].arguments.value else "") + ArgumentText(own[1..])
  }

  function SlotOf(own: seq<ToolDelta>): Slot {
    Slot(FirstId(own), FirstName(own), ArgumentText(own))
  }

  function Indices(fragments: seq<ToolDelta>): set<int> {
    set t | t in fragments && t.index.Some? :: t.index.value
  }

  function Slots(fragments: seq<ToolDelta>): map<int, Slot> {
    map i | i in Indices(fragments) :: SlotOf(Own(fragments, i))
  }

  predicate Ascending(s: seq<int>) {
    forall i, j | 0 <= i < j < |s| :: s[i] < s[j]
  }

  lemma {:induction false} Least(s: set<int>) returns (least: int)
    requires s != {}
    ensures least in s && forall x | x in s :: least <= x
    decreases |s|
  {
    var x := Pick(s);
    var others := s - {x};
    if others == {} {
      forall z | z in s ensures x <= z { assert z in others || z == x; }
      least := x;
    } else {
      var y := Least(others);
      least := if x < y then x else y;
      forall z | z in s ensures least <= z { assert z in others || z == x; }
    }
  }

  /** `sorted(slots)`. */
  function Sorted(s: set<int>): (r: seq<int>)
    ensures Ascending(r) && forall x :: x in r <==> x in s
    decreases |s|
  {
    if s == {} then []
    else
      assert exists least :: least in s && forall x | x in s :: least <= x by { var l := Least(s); }
      var least :| least in s && forall x | x in s :: least <= x;
      [least] + Sorted(s - {least})
  }

  function Finished<J>(json: Json<J>, slot: Slot): ToolCall<J> {
    ToolCall(if slot.id == "" then None else Some(slot.id), slot.name, Decode(json, slot.arguments))
  }

  function CallsInOrder<J>(json: Json<J>, slots: map<int, Slot>, order: seq<int>): seq<ToolCall<J>>
    requires forall k | 0 <= k < |order| :: order[k] in slots
  {
    if order == [] then [] else [Finished(json, slots[order[0]])] + CallsInOrder(json, slots, order[1..])
  }

  function Calls<J>(json: Json<J>, fragments: seq<ToolDelta>): seq<ToolCall<J>> {
    CallsInOrder(json, Slots(fragments), Sorted(Indices(fragments)))
  }

  /** `text` is the first of the texts that is not empty, or empty when all are. */
  ghost predicate FirstNonEmpty(texts: seq<string>, text: string) {
    if text == "" then forall k | 0 <= k < |texts| :: texts[k] == ""
    else exists k | 0 <= k < |texts| :: texts[k] == text && forall j | 0 <= j < k :: texts[j] == ""
  }

  function Ids(own: seq<ToolDelta>): seq<string> {
    seq(|own|, k requires 0 <= k < |own| => own[k].id)
  }

  function Names(own: seq<ToolDelta>): seq<string> {
    seq(|own|, k requires 0 <= k < |own| => own[k].name)
  }

  /** The call that the fragments of one index make up. */
  ghost predicate Rebuilt<J>(json: Json<J>, own: seq<ToolDelta>, call: ToolCall<J>) {
    && FirstNonEmpty(Ids(own), if call.callId.Some? then call.callId.value else "")
    && call.callId != Some("")
    && FirstNonEmpty(Names(own), call.name)
    && StandsFor(json, ArgumentText(own), call.arguments)
  }

  lemma {:induction false} FirstsAreFirst(own: seq<ToolDelta>)
    ensures FirstNonEmpty(Ids(own), FirstId(own)) && FirstNonEmpty(Names(own), FirstName(own))
  {
    if own != [] {
      FirstsAreFirst(own[1..]);
      assert Ids(own)[1..] == Ids(own[1..]) && Names(own)[1..] == Names(own[1..]);
      FirstShift(Ids(own), FirstId(own[1..]));
      FirstShift(Names(own), FirstName(own[1..]));
    }
  }

  lemma FirstShift(texts: seq<string>, text: string)
    requires texts != [] && FirstNonEmpty(texts[1..], text)
    ensures FirstNonEmpty(texts, if texts[0] != "" then texts[0] else text)
  {
    if texts[0] == "" {
      if text == "" {
        forall k | 0 <= k < |texts| ensures texts[k] == "" { assert k > 0 ==> texts[1..][k - 1] == ""; }
      } else {
        var k :| 0 <= k < |texts[1..]| && texts[1..][k] == text && forall j | 0 <= j < k :: texts[1..][j] == "";
        assert texts[k + 1] == text;
        forall j | 0 <= j < k + 1 ensures texts[j] == "" { assert j > 0 ==> texts[1..][j - 1] == ""; }
      }
    }
  }

  lemma FinishedIsRebuilt<J>(json: Json<J>, own: seq<ToolDelta>)
    ensures Rebuilt(json, own, Finished(json, SlotOf(own)))
  {
    FirstsAreFirst(own);
    DecodeStandsFor(json, ArgumentText(own));
  }

  /** One call for each index, in ascending order: its first id, its first name, and what its argument text stands for. */
  lemma CallsAreRebuilt<J>(json: Json<J>, fragments: seq<ToolDelta>)
    ensures var order, calls := Sorted(Indices(fragments)), Calls(json, fragments);
            |calls| == |order| && forall k | 0 <= k < |order| :: Rebuilt(json, Own(fragments, order[k]), calls[k])
  {
    var order := Sorted(Indices(fragments));
    CallsMembers(json, Slots(fragments), order);
    forall k | 0 <= k < |order| ensures Rebuilt(json, Own(fragments, order[k]), Calls(json, fragments)[k]) {
      assert order[k] in order;
      FinishedIsRebuilt(json, Own(fragments, order[k]));
    }
  }

  lemma {:induction false} CallsMembers<J>(json: Json<J>, slots: map<int, Slot>, order: seq<int>)
    requires forall k | 0 <= k < |order| :: order[k] in slots
    ensures |CallsInOrder(json, slots, order)| == |order|
    ensures forall k | 0 <= k < |order| :: CallsInOrder(json, slots, order)[k] == Finished(json, slots[order[k]])
  {
    if order != [] {
      CallsMembers(json, slots, order[1..]);
    }
  }

  // ---- the loop ---------------------------------------------------------------

  lemma {:induction false} OwnAppend(a: seq<ToolDelta>, b: seq<ToolDelta>, i: int)
    ensures Own(a + b, i) == Own(a, i) + Own(b, i)
  {
    if a == [] {
      assert a + b == b;
    } else {
      assert (a + b)[1..] == a[1..] + b;
      OwnAppend(a[1..], b, i);
    }
  }

  lemma {:induction false} SlotAppend(own: seq<ToolDelta>, t: ToolDelta)
    ensures var s := SlotOf(own);
            SlotOf(own + [t]) == Slot(if s.id == "" then t.id else s.id,
                                      if s.name == "" then t.name else s.name,
                                      s.arguments + (if t.arguments.Some? then t.arguments.value else ""))
  {
    if own == [] {
      assert own + [t] == [t] && [t][1..] == [];
    } else {
      assert (own + [t])[1..] == own[1..] + [t];
      SlotAppend(own[1..], t);
    }
  }

  lemma {:induction false} OwnEmpty(fragments: seq<ToolDelta>, i: int)
    ensures Own(fragments, i) == [] <==> i !in Indices(fragments)
  {
    if fragments != [] {
      OwnEmpty(fragments[1..], i);
      assert fragments == [fragments[0]] + fragments[1..];
      if i in Indices(fragments) {
        var t :| t in fragments && t.index == Some(i);
        assert t == fragments[0] || t in fragments[1..];
      }
    }
  }

  lemma SlotsSkip(done: seq<ToolDelta>, t: ToolDelta)
    requires t.index == None
    ensures Slots(done + [t]) == Slots(done)
  {
    assert Indices(done + [t]) == Indices(done) by {
      assert forall u :: u in done + [t] <==> u in done || u == t;
    }
    forall i | i in Indices(done) ensures Own(done + [t], i) == Own(done, i) {
      OwnAppend(done, [t], i);
    }
  }

  lemma SlotsGrow(done: seq<ToolDelta>, t: ToolDelta)
    requires t.index.Some?
    ensures Slots(done + [t]) == Slots(done)[t.index.value := SlotOf(Own(done, t.index.value) + [t])]
  {
    var k := t.index.value;
    assert Indices(done + [t]) == Indices(done) + {k} by {
      assert t in done + [t];
      assert forall u :: u in done + [t] <==> u in done || u == t;
    }
    forall i | i in Indices(done + [t])
      ensures Own(done + [t], i) == if i == k then Own(done, i) + [t] else Own(done, i)
    {
      OwnAppend(done, [t], i);
    }
  }

  function Absorb(slots: map<int, Slot>, tc: ToolDelta): map<int, Slot> {
    if tc.index == None then slots
    else
      var slot := if tc.index.value in slots then slots[tc.index.value] else Slot("", "", "");
      slots[tc.index.value := Slot(if slot.id == "" then tc.id else slot.id,
                                   if slot.name == "" then tc.name else slot.name,
                                   slot.arguments + (if tc.arguments.Some? then tc.arguments.value else ""))]
  }

  lemma AbsorbGrows(done: seq<ToolDelta>, tc: ToolDelta)
    ensures Absorb(Slots(done), tc) == Slots(done + [tc])
  {
    if tc.index.Some? {
      OwnEmpty(done, tc.index.value);
      SlotAppend(Own(done, tc.index.value), tc);
      SlotsGrow(done, tc);
    } else {
      SlotsSkip(done, tc);
    }
  }

  /** The source's loops compute the closed form. */
  method ReconstructToolCalls<J>(json: Json<J>, deltas: seq<seq<ToolDelta>>) returns (out: seq<ToolCall<J>>)
    ensures out == Calls(json, Flatten(deltas))
    ensures var fragments := Flatten(deltas);
            var order := Sorted(Indices(fragments));
            |out| == |order| && forall k | 0 <= k < |order| :: Rebuilt(json, Own(fragments, order[k]), out[k])
  {
    CallsAreRebuilt(json, Flatten(deltas));
    var slots: map<int, Slot> := map[];
    ghost var done: seq<ToolDelta> := [];
    for d := 0 to |deltas|
      invariant slots == Slots(done) && done + Flatten(deltas[d..]) == Flatten(deltas)
    {
      slots := AbsorbAll(slots, deltas[d], done);
      assert deltas[d..][1..] == deltas[d + 1..];
      ConcatAssociates(done, deltas[d], Flatten(deltas[d + 1..]));
      done := done + deltas[d];
    }
    assert deltas[|deltas|..] == [] && done + [] == done;
    assert slots.Keys == Indices(done);
    out := FinishAll(json, slots, Sorted(slots.Keys));
  }

  method FinishAll<J>(json: Json<J>, slots: map<int, Slot>, order: seq<int>) returns (out: seq<ToolCall<J>>)
    requires forall k | 0 <= k < |order| :: order[k] in slots
    ensures out == CallsInOrder(json, slots, order)
  {
    out := [];
    for n := 0 to |order|
      invariant out + CallsInOrder(json, slots, order[n..]) == CallsInOrder(json, slots, order)
    {
      assert order[n..][1..] == order[n + 1..];
      out := out + [Finished(json, slots[order[n]])];
    }
    assert order[|order|..] == [] && out + [] == out;
  }

  lemma ConcatAssociates<T>(a: seq<T>, b: seq<T>, c: seq<T>)
    ensures (a + b) + c == a + (b + c)
  {
  }

  method AbsorbAll(before: map<int, Slot>, toolCalls: seq<ToolDelta>, ghost done: seq<ToolDelta>)
    returns (slots: map<int, Slot>)
    requires before == Slots(done)
    ensures slots == Slots(done + toolCalls)
  {
    slots := before;
    assert done + [] == done;
    for k := 0 to |toolCalls|
      invariant slots == Slots(done + toolCalls[..k])
    {
      var tc := toolCalls[k];
      AbsorbGrows(done + toolCalls[..k], tc);
      assert done + toolCalls[..k] + [tc] == done + toolCalls[..k + 1];
      if tc.index.Some? {
        var idx := tc.index.value;
        var slot := if idx in slots then slots[idx] else Slot("", "", "");
        assert slot.arguments + "" == slot.arguments;
        if tc.id != "" && slot.id == "" { slot := slot.(id := tc.id); }
        if tc.name != "" && slot.name == "" { slot := slot.(name := tc.name); }
        if tc.arguments.Some? { slot := slot.(arguments := slot.arguments + tc.arguments.value); }
        slots := slots[idx := slot];
      }
    }
    assert toolCalls[..|toolCalls|] == toolCalls;
  }

  // ---- what the stream may vary ------------------------------------------------

  /** Interleaving of indices is irrelevant: equal own subsequences give equal calls. */
  lemma CallsIgnoreInterleaving<J>(json: Json<J>, a: seq<ToolDelta>, b: seq<ToolDelta>)
    requires forall i :: Own(a, i) == Own(b, i)
    ensures Calls(json, a) == Calls(json, b)
  {
    SlotsBySlot(a, b);
  }

  lemma {:induction false} ArgumentTextAppend(a: seq<ToolDelta>, b: seq<ToolDelta>)
    ensures ArgumentText(a + b) == ArgumentText(a) + ArgumentText(b)
  {
    if a == [] {
      assert a + b == b;
    } else {
      assert (a + b)[1..] == a[1..] + b;
      ArgumentTextAppend(a[1..], b);
    }
  }

  lemma {:induction false} FirstsAppend(a: seq<ToolDelta>, b: seq<ToolDelta>)
    ensures FirstId(a + b) == if FirstId(a) != "" then FirstId(a) else FirstId(b)
    ensures FirstName(a + b) == if FirstName(a) != "" then FirstName(a) else FirstName(b)
  {
    if a == [] {
      assert a + b == b;
    } else {
      assert (a + b)[1..] == a[1..] + b;
      FirstsAppend(a[1..], b);
    }
  }

  /** Replacing part of the own fragments by parts with the same slot keeps the slot. */
  lemma SlotCongruence(p: seq<ToolDelta>, x: seq<ToolDelta>, y: seq<ToolDelta>, q: seq<ToolDelta>)
    requires SlotOf(x) == SlotOf(y)
    ensures SlotOf(p + x + q) == SlotOf(p + y + q)
  {
    ArgumentTextAppend(p, x); ArgumentTextAppend(p + x, q);
    ArgumentTextAppend(p, y); ArgumentTextAppend(p + y, q);
    FirstsAppend(p, x); FirstsAppend(p + x, q);
    FirstsAppend(p, y); FirstsAppend(p + y, q);
  }

  lemma OwnSingle(t: ToolDelta, i: int)
    ensures Own([t], i) == if t.index == Some(i) then [t] else []
  {
    assert [t][1..] == [];
  }

  lemma SplitPair(t: ToolDelta, left: string, right: string)
    requires t.arguments == Some(left + right)
    ensures SlotOf([t])
         == SlotOf([t.(arguments := Some(left)), ToolDelta(t.index, "", "", Some(right))])
  {
    var a, b := t.(arguments := Some(left)), ToolDelta(t.index, "", "", Some(right));
    assert [t][1..] == [] && [a, b][1..] == [b] && [b][1..] == [];
    assert ArgumentText([t]) == left + right + "";
    assert ArgumentText([b]) == right + "";
    assert ArgumentText([a, b]) == left + (right + "");
    assert b.id == "" && b.name == "";
    assert FirstId([b]) == FirstId([]) && FirstName([b]) == FirstName([]);
    assert FirstId([a, b]) == if a.id != "" then a.id else FirstId([b]);
    assert FirstName([a, b]) == if a.name != "" then a.name else FirstName([b]);
  }

  /** The own fragments of the split stream at its index, and those of the whole one. */
  lemma SplitOwn(p: seq<ToolDelta>, t: ToolDelta, a: ToolDelta, b: ToolDelta, between: seq<ToolDelta>,
                 q: seq<ToolDelta>, i: int)
    requires t.index == a.index == b.index == Some(i) && i !in Indices(between)
    ensures Own(p + [t] + between + [] + q, i) == Own(p, i) + [t] + Own(q, i)
    ensures Own(p + [a] + between + [b] + q, i) == Own(p, i) + [a, b] + Own(q, i)
  {
    OwnAround(p, t, between, [], q, i);
    OwnAround(p, a, between, [b], q, i);
    OwnSingle(b, i);
    OwnEmpty(between, i);
    assert Own(p, i) + [t] + [] + [] + Own(q, i) == Own(p, i) + [t] + Own(q, i);
    assert Own(p, i) + [a] + [] + [b] + Own(q, i) == Own(p, i) + [a, b] + Own(q, i);
  }

  /** Other indices see the same fragments. */
  lemma SplitElsewhere(p: seq<ToolDelta>, t: ToolDelta, a: ToolDelta, b: ToolDelta, between: seq<ToolDelta>,
                       q: seq<ToolDelta>, i: int)
    requires t.index == a.index == b.index && t.index != Some(i)
    ensures Own(p + [t] + between + [] + q, i) == Own(p + [a] + between + [b] + q, i)
  {
    OwnAround(p, t, between, [], q, i);
    OwnAround(p, a, between, [b], q, i);
    OwnSingle(b, i);
  }

  /** Seen from one index, the two streams give the same slot. */
  lemma SplitSlot(p: seq<ToolDelta>, t: ToolDelta, left: string, right: string, between: seq<ToolDelta>,
                  q: seq<ToolDelta>, i: int)
    requires t.index.Some? && t.arguments == Some(left + right) && t.index.value !in Indices(between)
    ensures var whole := p + [t] + between + [] + q;
            var split := p + [t.(arguments := Some(left))] + between + [ToolDelta(t.index, "", "", Some(right))] + q;
            (Own(whole, i) == [] <==> Own(split, i) == []) && SlotOf(Own(whole, i)) == SlotOf(Own(split, i))
  {
    var a, b := t.(arguments := Some(left)), ToolDelta(t.index, "", "", Some(right));
    if i == t.index.value {
      SplitOwn(p, t, a, b, between, q, i);
      SplitPair(t, left, right);
      SlotCongruence(Own(p, i), [t], [a, b], Own(q, i));
    } else {
      SplitElsewhere(p, t, a, b, between, q, i);
    }
  }

  /** Splitting one argument fragment in two, with anything of other indices between, changes nothing. */
  lemma CallsIgnoreSplitting<J>(json: Json<J>, p: seq<ToolDelta>, t: ToolDelta, left: string, right: string,
                                between: seq<ToolDelta>, q: seq<ToolDelta>)
    requires t.index.Some? && t.arguments == Some(left + right) && t.index.value !in Indices(between)
    ensures Calls(json, p + [t] + between + q)
         == Calls(json, p + [t.(arguments := Some(left))] + between
                        + [ToolDelta(t.index, "", "", Some(right))] + q)
  {
    var whole := p + [t] + between + q;
    var split := p + [t.(arguments := Some(left))] + between + [ToolDelta(t.index, "", "", Some(right))] + q;
    assert whole == p + [t] + between + [] + q;
    forall i
      ensures (Own(whole, i) == [] <==> Own(split, i) == []) && SlotOf(Own(whole, i)) == SlotOf(Own(split, i))
    {
      SplitSlot(p, t, left, right, between, q, i);
    }
    SlotsBySlot(whole, split);
  }

  lemma OwnAround(p: seq<ToolDelta>, t: ToolDelta, between: seq<ToolDelta>, r: seq<ToolDelta>,
                  q: seq<ToolDelta>, i: int)
    ensures Own(p + [t] + between + r + q, i)
         == Own(p, i) + (if t.index == Some(i) then [t] else []) + Own(between, i) + Own(r, i) + Own(q, i)
  {
    OwnSingle(t, i);
    OwnAppend(p, [t], i);
    OwnAppend(p + [t], between, i);
    OwnAppend(p + [t] + between, r, i);
    OwnAppend(p + [t] + between + r, q, i);
  }

  lemma SlotsBySlot(a: seq<ToolDelta>, b: seq<ToolDelta>)
    requires forall i :: (Own(a, i) == [] <==> Own(b, i) == []) && SlotOf(Own(a, i)) == SlotOf(Own(b, i))
    ensures Slots(a) == Slots(b) && Indices(a) == Indices(b)
  {
    forall i ensures i in Indices(a) <==> i in Indices(b) {
      OwnEmpty(a, i);
      OwnEmpty(b, i);
    }
    assert Indices(a) == Indices(b);
  }
}
