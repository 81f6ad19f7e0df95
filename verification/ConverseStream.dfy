/**
 The Converse stream consumer as an object: its blocks, the events it pushed, the redacted
 chunks it holds, the three block handlers, and the loop over the stream's items
 (extensions/amazon-bedrock/stream.runtime.ts).
 */
module ConverseStream {
  import opened Prelude
  import opened ConverseBlocks

  // ---------------------------------------------------------------- how a stream ends

  /** The items handled before the loop throws, if it does. */
  function Handled(items: seq<Item>): (n: nat)
    ensures n <= |items|
    ensures forall k :: 0 <= k < n ==> !Throws(items[k])
    ensures n < |items| ==> Throws(items[n])
  {
    if items == [] || Throws(items[0]) then 0 else 1 + Handled(items[1..])
  }

  ghost predicate Stops(items: seq<Item>, k: nat) {
    k < |items| && items[k].MessageStop? && forall j :: k < j < |items| ==> !items[j].MessageStop?
  }

  /** A stream completes when nothing throws, it was not aborted, and its last message stop is a good one. */
  ghost predicate Completes(items: seq<Item>, aborted: bool) {
    && !aborted
    && (forall k :: 0 <= k < |items| ==> !Throws(items[k]))
    && exists k: nat :: Stops(items, k) && !items[k].failed
  }

  function Stripped(b: Block): Block {
    match b
    case Text(text, _) => Text(text, None)
    case Thinking(thinking, signature, redacted, _) => Thinking(thinking, signature, redacted, None)
    case ToolCall(id, name, arguments, _, _) => ToolCall(id, name, arguments, None, None)
  }

  ghost predicate IsStripped(blocks: seq<Block>, original: seq<Block>) {
    |blocks| == |original| && forall p :: 0 <= p < |blocks| ==> blocks[p] == Stripped(original[p])
  }

  /**
   After a failure, unless the content is held back, the blocks carry no scratch state, and
   each still holds what had reached it; a redacted one holds its chunks if its stop came,
   and otherwise the signature it had.
   */
  lemma {:induction false} FailedStream(items: seq<Item>, blocks: seq<Block>, p: nat)
    requires IsStripped(blocks, HandleAll(EMPTY, items).blocks) && p < |blocks|
    ensures p < |FedBy(items)|
    ensures blocks[p].index.None? && (blocks[p].ToolCall? ==> blocks[p].partialJson.None?)
    ensures !(blocks[p].Thinking? && blocks[p].redacted) ==> Holds(blocks[p], FedBy(items)[p])
    ensures blocks[p].Thinking? && blocks[p].redacted ==>
              var fed := FedBy(items)[p];
              fed.chunks != [] && blocks[p].signature in {Plain(fed.signature), Encoded(Flatten(fed.chunks))}
  {
    HandleAllInv(items);
    assert BlockInv(HandleAll(EMPTY, items), p, FedBy(items)[p]);
  }

  class StreamConsumer {
    var blocks: seq<Block>
    var events: seq<Event>
    var redactedChunks: map<nat, seq<Bytes>>

    ghost function View(): Acc
      reads this
    {
      Acc(blocks, events, redactedChunks)
    }

    constructor ()
      ensures View() == EMPTY
    {
      blocks, events, redactedChunks := [], [], map[];
    }

    method FindIndex(index: nat) returns (p: nat)
      ensures p == FindOpen(blocks, index)
    {
      p := 0;
      while p < |blocks| && blocks[p].index != Some(index)
        invariant p <= |blocks|
        invariant forall q :: 0 <= q < p ==> blocks[q].index != Some(index)
      {
        p := p + 1;
      }
      FindOpenUnique(blocks, index, p);
    }

    method PushBlock(block: Block) returns (p: nat)
      modifies this
      ensures View() == Push(old(View()), block) && p == old(|blocks|)
    {
      p := |blocks|;
      blocks := blocks + [block];
      events := events + [BlockStart(p, block.Kind())];
    }

    method HandleContentBlockStart(index: nat, toolUse: Option<(string, string)>)
      modifies this
      ensures View() == StartBlock(old(View()), index, toolUse)
    {
      if toolUse.Some? {
        var _ := PushBlock(ToolCall(toolUse.value.0, toolUse.value.1, NoArguments, Some(""), Some(index)));
      }
    }

    method HandleText(p: nat, text: string)
      requires p < |blocks|
      modifies this
      ensures View() == AddText(old(View()), p, text)
    {
      var block := blocks[p];
      if block.Text? {
        blocks := blocks[p := block.(text := block.text + text)];
        events := events + [Delta(p, TextKind, text)];
      }
    }

    method HandleToolInput(p: nat, input: string)
      requires p < |blocks|
      modifies this
      ensures View() == AddToolInput(old(View()), p, input)
    {
      var block := blocks[p];
      if block.ToolCall? {
        var json := (if block.partialJson.Some? then block.partialJson.value else "") + input;
        blocks := blocks[p := block.(partialJson := Some(json), arguments := ParsedFrom(json))];
        events := events + [Delta(p, ToolKind, input)];
      }
    }

    method HandleReasoning(p: nat, index: nat, text: string, signature: string, chunk: Option<Bytes>)
      requires p < |blocks|
      modifies this
      ensures View() == AddReasoning(old(View()), p, index, text, signature, chunk)
    {
      ghost var was := View();
      if blocks[p].Thinking? && text != "" {
        blocks := blocks[p := blocks[p].(thinking := blocks[p].thinking + text)];
        events := events + [Delta(p, ThinkingKind, text)];
      }
      assert View() == AddThinking(was, p, text);
      ghost var thought := View();
      if blocks[p].Thinking? && signature != "" {
        var older := if blocks[p].signature.Plain? then blocks[p].signature.text else "";
        blocks := blocks[p := blocks[p].(signature := Plain(older + signature))];
      }
      assert View() == AddSignature(thought, p, signature) by {
        assert events + [] == events;
      }
      if blocks[p].Thinking? && chunk.Some? {
        var chunks := if index in redactedChunks then redactedChunks[index] else [];
        redactedChunks := redactedChunks[index := chunks + [chunk.value]];
        blocks := blocks[p := blocks[p].(thinking := REDACTED_TEXT, redacted := true)];
      }
      assert events + [] == events;
    }

    method HandleContentBlockDelta(index: nat, delta: DeltaPayload)
      modifies this
      ensures View() == AddDelta(old(View()), index, delta)
    {
      var p := FindIndex(index);
      match delta
      case TextDelta(text) =>
        if p == |blocks| {
          p := PushBlock(Text("", Some(index)));
        }
        HandleText(p, text);
      case ToolDelta(input) =>
        if p < |blocks| {
          HandleToolInput(p, input);
        }
      case ReasoningDelta(text, signature, chunk) =>
        if p == |blocks| {
          p := PushBlock(Thinking("", Plain(""), false, Some(index)));
        }
        HandleReasoning(p, index, text, signature, chunk);
      case NoDelta =>
    }

    method Encode(chunks: seq<Bytes>) returns (opaqueReasoning: Bytes)
      ensures opaqueReasoning == Flatten(chunks)
    {
      opaqueReasoning := [];
      for k := 0 to |chunks|
        invariant opaqueReasoning == Flatten(chunks[..k])
      {
        assert chunks[..k + 1][..k] == chunks[..k];
        opaqueReasoning := opaqueReasoning + chunks[k];
      }
      assert chunks[..|chunks|] == chunks;
    }

    method HandleContentBlockStop(index: nat)
      modifies this
      ensures View() == StopBlock(old(View()), index)
    {
      var p := FindIndex(index);
      if p == |blocks| {
        return;
      }
      var block := blocks[p];
      block := block.(index := None);
      if block.Thinking? && block.redacted && index in redactedChunks {
        var opaqueReasoning := Encode(redactedChunks[index]);
        block := block.(signature := Encoded(opaqueReasoning));
        redactedChunks := redactedChunks - {index};
      } else if block.ToolCall? {
        block := block.(partialJson := None);
      }
      blocks := blocks[p := block];
      events := events + [BlockEnd(p, block)];
    }

    /** One item of the stream; `ok` is false when it throws. */
    method HandleItem(item: Item) returns (ok: bool)
      modifies this
      ensures ok <==> !Throws(item)
      ensures View() == if ok then Handle(old(View()), item) else old(View())
    {
      match item {
      case MessageStart(assistant) => return assistant;
      case ContentStart(index, toolUse) => HandleContentBlockStart(index, toolUse);
      case ContentDelta(index, delta) => HandleContentBlockDelta(index, delta);
      case ContentStop(index) => HandleContentBlockStop(index);
      case MessageStop(_) =>
      case Metadata =>
      case Exception => return false;
      }
      ok := true;
    }

    /** Stops, in order, the blocks whose stop never came. */
    method CloseOpenBlocks()
      modifies this
      ensures View() == Sweep(old(View()), 0)
    {
      var k := 0;
      while k < |blocks|
        invariant k <= |blocks|
        invariant Sweep(View(), k) == Sweep(old(View()), 0)
      {
        if blocks[k].index.Some? {
          HandleContentBlockStop(blocks[k].index.value);
        }
        k := k + 1;
      }
    }

    method StripScratch()
      modifies this`blocks
      ensures IsStripped(blocks, old(blocks))
    {
      var k := 0;
      while k < |blocks|
        invariant k <= |blocks| == |old(blocks)|
        invariant forall p :: 0 <= p < k ==> blocks[p] == Stripped(old(blocks)[p])
        invariant forall p :: k <= p < |blocks| ==> blocks[p] == old(blocks)[p]
      {
        blocks := blocks[k := blocks[k].(index := None)];
        if blocks[k].ToolCall? {
          blocks := blocks[k := blocks[k].(partialJson := None)];
        }
        k := k + 1;
      }
    }

    /**
     The event loop. With `holdBack` no event is shown before the stream has completed, and
     after a failure neither events nor content are.
     */
    method Consume(items: seq<Item>, aborted: bool, holdBack: bool) returns (done: bool, shown: seq<Event>)
      requires View() == EMPTY
      modifies this
      ensures done <==> Completes(items, aborted)
      ensures done ==> View() == Completed(items) && shown == events
      ensures !done && holdBack ==> blocks == [] && shown == []
      ensures !done && !holdBack ==>
                && IsStripped(blocks, HandleAll(EMPTY, items[..Handled(items)]).blocks)
                && shown == HandleAll(EMPTY, items[..Handled(items)]).events
    {
      var sawMessageStop, failed, ok, n := false, false, true, 0;
      while n < |items| && ok
        invariant n <= |items|
        invariant if ok then n <= Handled(items) else n == Handled(items) < |items|
        invariant View() == HandleAll(EMPTY, items[..n])
        invariant LastStop(items[..n], sawMessageStop, failed)
        decreases |items| - n, ok
      {
        ok := HandleItem(items[n]);
        if ok {
          LoopStep(items, n, sawMessageStop, failed);
          if items[n].MessageStop? {
            sawMessageStop, failed := true, items[n].failed;
          }
          n := n + 1;
        }
      }
      CompletesWhen(items, n, ok, sawMessageStop, failed, aborted);
      assert items[..|items|] == items;
      done := ok && sawMessageStop && !aborted && !failed;
      if done {
        CloseOpenBlocks();
        shown := events;
        return;
      }
      StripScratch();
      shown := events;
      if holdBack {
        shown := [];
        blocks := [];
      }
    }
  }

  /** Whether a message stop came, and whether the last one was a failure. */
  ghost predicate LastStop(items: seq<Item>, saw: bool, failed: bool) {
    if saw then exists k: nat :: Stops(items, k) && items[k].failed == failed
    else forall k :: 0 <= k < |items| ==> !items[k].MessageStop?
  }

  lemma {:induction false} LoopStep(items: seq<Item>, n: nat, saw: bool, failed: bool)
    requires n < |items| && n <= Handled(items) && !Throws(items[n])
    requires LastStop(items[..n], saw, failed)
    ensures n + 1 <= Handled(items)
    ensures HandleAll(EMPTY, items[..n + 1]) == Handle(HandleAll(EMPTY, items[..n]), items[n])
    ensures if items[n].MessageStop? then LastStop(items[..n + 1], true, items[n].failed)
            else LastStop(items[..n + 1], saw, failed)
  {
    assert items[..n + 1][..n] == items[..n];
    if items[n].MessageStop? {
      assert Stops(items[..n + 1], n);
    } else if saw {
      var k: nat :| Stops(items[..n], k) && items[..n][k].failed == failed;
      assert Stops(items[..n + 1], k) && items[..n + 1][k].failed == failed;
    }
  }

  lemma {:induction false} CompletesWhen(items: seq<Item>, n: nat, ok: bool, saw: bool, failed: bool, aborted: bool)
    requires n <= |items| && (ok ==> n == |items|)
    requires if ok then n <= Handled(items) else n == Handled(items) < |items|
    requires LastStop(items[..n], saw, failed)
    ensures Completes(items, aborted) <==> ok && saw && !aborted && !failed
  {
    if ok {
      assert items[..n] == items;
      assert forall j: nat, k: nat :: Stops(items, j) && Stops(items, k) ==> j == k;
    }
  }
}
