/**
 The content blocks of a Converse stream from its items alone
 (extensions/amazon-bedrock/stream.runtime.ts): which block each item opens, feeds or ends.
 */
module ConverseLaws {
  import opened Prelude
  import opened ConverseBlocks

  /** What is known of a content position without its contents: its kind, whether it is open, and whose call it is. */
  datatype Slot = Slot(kind: Kind, open: Option<nat>, tool: Option<(string, string)>)

  /** `p` is the first position open under the stream index; none is if `p` is the number of positions. */
  ghost predicate IsFirstOpen(slots: seq<Slot>, index: nat, p: nat) {
    && p <= |slots| && (p < |slots| ==> slots[p].open == Some(index))
    && forall q :: 0 <= q < p ==> slots[q].open != Some(index)
  }

  function KindOf(delta: DeltaPayload): Option<Kind> {
    match delta
    case TextDelta(_) => Some(TextKind)
    case ToolDelta(_) => Some(ToolKind)
    case ReasoningDelta(_, _, _) => Some(ThinkingKind)
    case NoDelta => None
  }

  function Fed1(delta: DeltaPayload, fed: Fed): Fed {
    match delta
    case TextDelta(text) => fed.(texts := fed.texts + [text])
    case ToolDelta(input) => fed.(texts := fed.texts + [input])
    case ReasoningDelta(text, signature, chunk) =>
      Fed(fed.texts + (if text == "" then [] else [text]), fed.signature + signature,
          fed.chunks + if chunk.None? then [] else [chunk.value])
    case NoDelta => fed
  }

  /**
   What one item does: a tool's start opens a position; a delta feeds the first position open
   under its index if that is of its kind, and opens one if there is none, unless it is a
   tool's; a stop closes the first position open under its index.
   */
  ghost predicate Does(item: Item, slots: seq<Slot>, fed: seq<Fed>, slots': seq<Slot>, fed': seq<Fed>) {
    match item
    case ContentStart(index, Some(tool)) =>
      slots' == slots + [Slot(ToolKind, Some(index), Some(tool))] && fed' == fed + [Fed([], "", [])]
    case ContentDelta(index, delta) =>
      exists p: nat :: IsFirstOpen(slots, index, p) && |fed| == |slots| &&
        if p < |slots| then
          slots' == slots && fed' == if Some(slots[p].kind) == KindOf(delta) then fed[p := Fed1(delta, fed[p])] else fed
        else if delta.TextDelta? || delta.ReasoningDelta? then
          && slots' == slots + [Slot(KindOf(delta).value, Some(index), None)]
          && fed' == fed + [Fed1(delta, Fed([], "", []))]
        else slots' == slots && fed' == fed
    case ContentStop(index) =>
      && fed' == fed
      && exists p: nat :: IsFirstOpen(slots, index, p) &&
           slots' == if p < |slots| then slots[p := slots[p].(open := None)] else slots
    case _ => slots' == slots && fed' == fed
  }

  /** `slots` and `fed` are what the items make of nothing. */
  ghost predicate Make(items: seq<Item>, slots: seq<Slot>, fed: seq<Fed>)
    decreases |items|
  {
    if items == [] then slots == [] && fed == []
    else
      exists slots0, fed0 {:trigger Does(items[|items| - 1], slots0, fed0, slots, fed)} ::
        Make(items[..|items| - 1], slots0, fed0) && Does(items[|items| - 1], slots0, fed0, slots, fed)
  }

  function SlotOf(b: Block): Slot {
    Slot(b.Kind(), b.index, if b.ToolCall? then Some((b.id, b.name)) else None)
  }

  function SlotsOf(blocks: seq<Block>): (r: seq<Slot>)
    ensures |r| == |blocks| && forall p :: 0 <= p < |r| ==> r[p] == SlotOf(blocks[p])
  {
    seq(|blocks|, p requires 0 <= p < |blocks| => SlotOf(blocks[p]))
  }

  lemma {:induction false} FindOpenIsFirst(blocks: seq<Block>, index: nat)
    ensures IsFirstOpen(SlotsOf(blocks), index, FindOpen(blocks, index))
  {
  }

  lemma {:induction false} SlotsPush(blocks: seq<Block>, b: Block)
    ensures SlotsOf(blocks + [b]) == SlotsOf(blocks) + [SlotOf(b)]
  {
  }

  lemma {:induction false} SlotsPut(blocks: seq<Block>, p: nat, b: Block)
    requires p < |blocks|
    ensures SlotsOf(blocks[p := b]) == SlotsOf(blocks)[p := SlotOf(b)]
  {
  }

  lemma {:induction false} ReasoningSlots(
      acc: Acc, p: nat, index: nat, t: string, signature: string, chunk: Option<Bytes>)
    requires p < |acc.blocks|
    ensures SlotsOf(AddReasoning(acc, p, index, t, signature, chunk).blocks) == SlotsOf(acc.blocks)
  {
    var acc1 := AddThinking(acc, p, t);
    var acc2 := AddSignature(acc1, p, signature);
    assert SlotsOf(acc1.blocks) == SlotsOf(acc.blocks);
    assert SlotsOf(acc2.blocks) == SlotsOf(acc1.blocks);
    assert SlotsOf(AddRedacted(acc2, p, index, chunk).blocks) == SlotsOf(acc2.blocks);
  }

  lemma {:induction false} NewTextSlot(acc: Acc, index: nat, text: string)
    ensures SlotsOf(AddText(Push(acc, Text("", Some(index))), |acc.blocks|, text).blocks) ==
            SlotsOf(acc.blocks) + [Slot(TextKind, Some(index), None)]
  {
  }

  lemma {:induction false} DeltaDoes(acc: Acc, fed: seq<Fed>, index: nat, delta: DeltaPayload)
    requires |fed| == |acc.blocks|
    ensures Does(ContentDelta(index, delta), SlotsOf(acc.blocks), fed,
                 SlotsOf(AddDelta(acc, index, delta).blocks), Route(acc, fed, index, delta))
  {
    var slots, p := SlotsOf(acc.blocks), FindOpen(acc.blocks, index);
    FindOpenIsFirst(acc.blocks, index);
    match delta
    case TextDelta(text) =>
      if p == |slots| {
        SlotsPush(acc.blocks, Text("", Some(index)));
        NewTextSlot(acc, index, text);
        assert [] + [text] == [text];
      } else {
        assert SlotsOf(AddText(acc, p, text).blocks) == slots;
      }
    case ToolDelta(input) =>
      if p < |slots| {
        assert SlotsOf(AddToolInput(acc, p, input).blocks) == slots;
      }
    case ReasoningDelta(thinking, signature, chunk) =>
      if p == |slots| {
        var b := Thinking("", Plain(""), false, Some(index));
        SlotsPush(acc.blocks, b);
        ReasoningSlots(Push(acc, b), p, index, thinking, signature, chunk);
      } else {
        ReasoningSlots(acc, p, index, thinking, signature, chunk);
        assert fed[p := fed[p]] == fed;
      }
    case NoDelta =>
  }

  lemma {:induction false} StopDoes(acc: Acc, fed: seq<Fed>, index: nat)
    ensures Does(ContentStop(index), SlotsOf(acc.blocks), fed, SlotsOf(StopBlock(acc, index).blocks), fed)
  {
    var p := FindOpen(acc.blocks, index);
    FindOpenIsFirst(acc.blocks, index);
    if p < |acc.blocks| {
      SlotsPut(acc.blocks, p, StopBlock(acc, index).blocks[p]);
    }
  }

  /** The machine's blocks, and what was routed to them, are what the items make. */
  lemma {:induction false} ItemsMake(items: seq<Item>)
    ensures Make(items, SlotsOf(HandleAll(EMPTY, items).blocks), FedBy(items))
  {
    if items != [] {
      var older, last := items[..|items| - 1], items[|items| - 1];
      ItemsMake(older);
      var acc := HandleAll(EMPTY, older);
      match last {
        case ContentStart(index, toolUse) =>
          if toolUse.Some? {
            SlotsPush(acc.blocks, ToolCall(toolUse.value.0, toolUse.value.1, NoArguments, Some(""), Some(index)));
          }
        case ContentDelta(index, delta) => DeltaDoes(acc, FedBy(older), index, delta);
        case ContentStop(index) => StopDoes(acc, FedBy(older), index);
        case _ =>
      }
      assert Does(last, SlotsOf(acc.blocks), FedBy(older), SlotsOf(HandleAll(EMPTY, items).blocks), FedBy(items));
    }
  }

  lemma {:induction false} FirstOpenOnce(slots: seq<Slot>, index: nat, p: nat, q: nat)
    requires IsFirstOpen(slots, index, p) && IsFirstOpen(slots, index, q)
    ensures p == q
  {
  }

  lemma {:induction false} DoesOnce(
      item: Item, slots: seq<Slot>, fed: seq<Fed>, a: seq<Slot>, f: seq<Fed>, b: seq<Slot>, g: seq<Fed>)
    requires Does(item, slots, fed, a, f) && Does(item, slots, fed, b, g)
    ensures a == b && f == g
  {
    match item
    case ContentDelta(index, _) =>
      forall p: nat, q: nat | IsFirstOpen(slots, index, p) && IsFirstOpen(slots, index, q) ensures p == q {
        FirstOpenOnce(slots, index, p, q);
      }
    case ContentStop(index) =>
      forall p: nat, q: nat | IsFirstOpen(slots, index, p) && IsFirstOpen(slots, index, q) ensures p == q {
        FirstOpenOnce(slots, index, p, q);
      }
    case _ =>
  }

  /** Items make one thing. */
  lemma {:induction false} MakeOnce(items: seq<Item>, a: seq<Slot>, f: seq<Fed>, b: seq<Slot>, g: seq<Fed>)
    requires Make(items, a, f) && Make(items, b, g)
    ensures a == b && f == g
    decreases |items|
  {
    if items != [] {
      var older, last := items[..|items| - 1], items[|items| - 1];
      var a0, f0 :| Make(older, a0, f0) && Does(last, a0, f0, a, f);
      var b0, g0 :| Make(older, b0, g0) && Does(last, b0, g0, b, g);
      MakeOnce(older, a0, f0, b0, g0);
      DoesOnce(last, a0, f0, a, f, b, g);
    }
  }

  lemma {:induction false} SweepKeepsKinds(acc: Acc, k: nat, p: nat)
    requires k <= |acc.blocks| && p < |acc.blocks|
    ensures var b, swept := acc.blocks[p], Sweep(acc, k).blocks[p];
            swept.Kind() == b.Kind() && SlotOf(swept).tool == SlotOf(b).tool
    decreases |acc.blocks| - k
  {
    if k < |acc.blocks| {
      SweepKeepsKinds(SweepOne(acc, k), k + 1, p);
    }
  }

  /**
   A completed stream, from its items alone: it has the content positions they open, each of
   its kind and with its tool's id and name; the consumer sees one start, the deltas that fed
   it and one end, all of that kind; and it holds what fed it.
   */
  lemma {:induction false} StreamIsMade(items: seq<Item>, slots: seq<Slot>, fed: seq<Fed>, p: nat)
    requires Make(items, slots, fed)
    ensures |Completed(items).blocks| == |slots| == |fed|
    ensures p < |slots| ==>
              var acc, kind := Completed(items), slots[p].kind;
              var b := acc.blocks[p];
              && b.Kind() == kind && (b.ToolCall? ==> slots[p].tool == Some((b.id, b.name)))
              && Log(acc.events, p) == [BlockStart(p, kind)] + Deltas(p, kind, fed[p].texts) + [BlockEnd(p, b)]
              && b.index.None? && Holds(b, fed[p])
  {
    ItemsMake(items);
    MakeOnce(items, slots, fed, SlotsOf(HandleAll(EMPTY, items).blocks), FedBy(items));
    if p < |slots| {
      CompletedStream(items, p);
      SweepKeepsKinds(HandleAll(EMPTY, items), 0, p);
    }
  }
}
