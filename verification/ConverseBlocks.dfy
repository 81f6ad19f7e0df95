/**
 The content-block machine of a Bedrock Converse stream
 (extensions/amazon-bedrock/stream.runtime.ts): how block events turn into content blocks
 and into the events a consumer sees.

 The streaming JSON parser and base64 are free constructors: `ParsedFrom` and `Encoded`.
 */
module ConverseBlocks {
  import opened Prelude

  datatype Kind = TextKind | ThinkingKind | ToolKind

  datatype Arguments = NoArguments | ParsedFrom(json: string)

  datatype Signature = Plain(text: string) | Encoded(bytes: Bytes)

  /** A content block; `index` and `partialJson` are scratch state of the stream. */
  datatype Block =
    | Text(text: string, index: Option<nat>)
    | Thinking(thinking: string, signature: Signature, redacted: bool, index: Option<nat>)
    | ToolCall(id: string, name: string, arguments: Arguments, partialJson: Option<string>, index: Option<nat>)
  {
    function Kind(): Kind {
      if Text? then TextKind else if Thinking? then ThinkingKind else ToolKind
    }
  }

  /** What a consumer sees about the block at a content position. */
  datatype Event = BlockStart(pos: nat, kind: Kind) | Delta(pos: nat, kind: Kind, text: string)
      | BlockEnd(pos: nat, block: Block)

  datatype DeltaPayload =
    | TextDelta(text: string)
    | ToolDelta(input: string)
    | ReasoningDelta(thinking: string, signature: string, redactedContent: Option<Bytes>)
    | NoDelta

  /** Blocks so far, events so far, and the redacted chunks of blocks still open. */
  datatype Acc = Acc(blocks: seq<Block>, events: seq<Event>, redacted: map<nat, seq<Bytes>>)

  const EMPTY := Acc([], [], map[])

  const REDACTED_TEXT := "[Reasoning redacted]"

  /** The first open block with this stream index, or the number of blocks. */
  function FindOpen(blocks: seq<Block>, index: nat): (p: nat)
    ensures p <= |blocks|
    ensures p < |blocks| ==> blocks[p].index == Some(index)
    ensures forall q :: 0 <= q < p ==> blocks[q].index != Some(index)
  {
    if blocks == [] then 0
    else if blocks[0].index == Some(index) then 0
    else 1 + FindOpen(blocks[1..], index)
  }

  function Put(acc: Acc, p: nat, block: Block, events: seq<Event>): Acc
    requires p < |acc.blocks|
  {
    acc.(blocks := acc.blocks[p := block], events := acc.events + events)
  }

  function Push(acc: Acc, block: Block): Acc {
    acc.(blocks := acc.blocks + [block], events := acc.events + [BlockStart(|acc.blocks|, block.Kind())])
  }

  function StartBlock(acc: Acc, index: nat, toolUse: Option<(string, string)>): Acc {
    match toolUse
    case None => acc
    case Some((id, name)) => Push(acc, ToolCall(id, name, NoArguments, Some(""), Some(index)))
  }

  function AddText(acc: Acc, p: nat, text: string): Acc
    requires p < |acc.blocks|
  {
    var b := acc.blocks[p];
    if b.Text? then Put(acc, p, b.(text := b.text + text), [Delta(p, TextKind, text)]) else acc
  }

  function AddToolInput(acc: Acc, p: nat, input: string): Acc
    requires p < |acc.blocks|
  {
    var b := acc.blocks[p];
    if b.ToolCall? then
      var json := (if b.partialJson.Some? then b.partialJson.value else "") + input;
      Put(acc, p, b.(partialJson := Some(json), arguments := ParsedFrom(json)), [Delta(p, ToolKind, input)])
    else acc
  }

  function AddThinking(acc: Acc, p: nat, text: string): Acc
    requires p < |acc.blocks|
  {
    var b := acc.blocks[p];
    if b.Thinking? && text != "" then Put(acc, p, b.(thinking := b.thinking + text), [Delta(p, ThinkingKind, text)])
    else acc
  }

  function AddSignature(acc: Acc, p: nat, signature: string): Acc
    requires p < |acc.blocks|
  {
    var b := acc.blocks[p];
    if b.Thinking? && signature != "" then
      Put(acc, p, b.(signature := Plain((if b.signature.Plain? then b.signature.text else "") + signature)), [])
    else acc
  }

  function AddRedacted(acc: Acc, p: nat, index: nat, chunk: Option<Bytes>): Acc
    requires p < |acc.blocks|
  {
    var b := acc.blocks[p];
    if b.Thinking? && chunk.Some? then
      Put(acc, p, b.(thinking := REDACTED_TEXT, redacted := true), [])
        .(redacted := acc.redacted[
            index := (if index in acc.redacted then acc.redacted[index] else []) + [chunk.value]])
    else acc
  }

  function AddReasoning(acc: Acc, p: nat, index: nat, text: string, signature: string, chunk: Option<Bytes>): Acc
    requires p < |acc.blocks|
  {
    AddRedacted(AddSignature(AddThinking(acc, p, text), p, signature), p, index, chunk)
  }

  function AddDelta(acc: Acc, index: nat, delta: DeltaPayload): Acc {
    var p := FindOpen(acc.blocks, index);
    match delta
    case TextDelta(text) =>
      var t := if p < |acc.blocks| then acc else Push(acc, Text("", Some(index)));
      AddText(t, p, text)
    case ToolDelta(input) => if p < |acc.blocks| then AddToolInput(acc, p, input) else acc
    case ReasoningDelta(thinking, signature, redactedContent) =>
      var t := if p < |acc.blocks| then acc else Push(acc, Thinking("", Plain(""), false, Some(index)));
      AddReasoning(t, p, index, thinking, signature, redactedContent)
    case NoDelta => acc
  }

  function Flatten(chunks: seq<Bytes>): Bytes {
    if chunks == [] then [] else Flatten(chunks[..|chunks| - 1]) + chunks[|chunks| - 1]
  }

  /** The block as it is when its stop is handled. */
  function Closed(b: Block, chunks: Option<seq<Bytes>>): Block {
    match b
    case Text(text, _) => Text(text, None)
    case Thinking(thinking, signature, redacted, _) =>
      Thinking(thinking, if redacted && chunks.Some? then Encoded(Flatten(chunks.value)) else signature, redacted, None)
    case ToolCall(id, name, arguments, _, _) => ToolCall(id, name, arguments, None, None)
  }

  function StopBlock(acc: Acc, index: nat): Acc {
    var p := FindOpen(acc.blocks, index);
    if p == |acc.blocks| then acc
    else
      var b := acc.blocks[p];
      var encode := b.Thinking? && b.redacted && index in acc.redacted;
      var closed := Closed(b, if encode then Some(acc.redacted[index]) else None);
      Put(acc, p, closed, [BlockEnd(p, closed)]).(redacted := if encode then acc.redacted - {index} else acc.redacted)
  }

  // ---------------------------------------------------------------- what a consumer sees

  /** The events about position `p`, in order. */
  function Log(events: seq<Event>, p: nat): seq<Event> {
    if events == [] then []
    else
      var older, last := events[..|events| - 1], events[|events| - 1];
      Log(older, p) + if last.pos == p then [last] else []
  }

  lemma {:induction false} LogPush(events: seq<Event>, e: Event, p: nat)
    ensures Log(events + [e], p) == Log(events, p) + if e.pos == p then [e] else []
  {
    assert (events + [e])[..|events|] == events;
  }

  function Deltas(p: nat, kind: Kind, texts: seq<string>): (r: seq<Event>)
    ensures |r| == |texts|
  {
    seq(|texts|, i requires 0 <= i < |texts| => Delta(p, kind, texts[i]))
  }

  function Concat(texts: seq<string>): string {
    if texts == [] then "" else Concat(texts[..|texts| - 1]) + texts[|texts| - 1]
  }

  lemma {:induction false} ConcatPush(texts: seq<string>, t: string)
    ensures Concat(texts + [t]) == Concat(texts) + t
  {
    assert (texts + [t])[..|texts|] == texts;
  }

  /** Exactly one start, then the deltas, then, once the block is closed, exactly one end. */
  ghost predicate WellLogged(p: nat, b: Block, log: seq<Event>, texts: seq<string>) {
    log == [BlockStart(p, b.Kind())] + Deltas(p, b.Kind(), texts) + if b.index.None? then [BlockEnd(p, b)] else []
  }

  /** What reached a content position: delta texts, reasoning signatures, redacted chunks. */
  datatype Fed = Fed(texts: seq<string>, signature: string, chunks: seq<Bytes>)

  const NOTHING := Fed([], "", [])

  /** The block holds the concatenation of what reached it. */
  ghost predicate Holds(b: Block, fed: Fed) {
    match b
    case Text(text, _) => text == Concat(fed.texts)
    case Thinking(thinking, signature, redacted, index) =>
      && (redacted <==> fed.chunks != [])
      && (!redacted ==> thinking == Concat(fed.texts))
      && signature == if redacted && index.None? then Encoded(Flatten(fed.chunks)) else Plain(fed.signature)
    case ToolCall(_, _, arguments, partialJson, index) =>
      && (if index.Some? then partialJson == Some(Concat(fed.texts)) else partialJson.None?)
      && arguments == if fed.texts == [] then NoArguments else ParsedFrom(Concat(fed.texts))
  }

  ghost predicate BlockInv(acc: Acc, p: nat, fed: Fed)
    requires p < |acc.blocks|
  {
    WellLogged(p, acc.blocks[p], Log(acc.events, p), fed.texts) && Holds(acc.blocks[p], fed)
  }

  /** An open text or thinking block is the first open one of its index; redacted ones have their chunks kept. */
  ghost predicate IndexInv(acc: Acc, p: nat, fed: Fed)
    requires p < |acc.blocks|
  {
    var b := acc.blocks[p];
    b.index.Some? && !b.ToolCall? ==>
      && FindOpen(acc.blocks, b.index.value) == p
      && (b.Thinking? && b.redacted ==> b.index.value in acc.redacted && acc.redacted[b.index.value] == fed.chunks)
  }

  /** Kept chunks belong to an open redacted block. */
  ghost predicate ChunkInv(acc: Acc, index: nat) {
    index in acc.redacted ==>
      var p := FindOpen(acc.blocks, index);
      p < |acc.blocks| && acc.blocks[p].Thinking? && acc.blocks[p].redacted
  }

  ghost predicate Inv(acc: Acc, fed: seq<Fed>) {
    && |fed| == |acc.blocks|
    && (forall e :: e in acc.events ==> e.pos < |acc.blocks|)
    && (forall p :: 0 <= p < |acc.blocks| ==> BlockInv(acc, p, fed[p]))
    && (forall p :: 0 <= p < |acc.blocks| ==> IndexInv(acc, p, fed[p]))
    && (forall index :: ChunkInv(acc, index))
  }

  // ---------------------------------------------------------------- lookup

  lemma {:induction false} FindOpenUnique(blocks: seq<Block>, index: nat, p: nat)
    requires p <= |blocks| && (p < |blocks| ==> blocks[p].index == Some(index))
    requires forall q :: 0 <= q < p ==> blocks[q].index != Some(index)
    ensures FindOpen(blocks, index) == p
  {
    var r := FindOpen(blocks, index);
    assert !(r < p) && !(p < r);
  }

  /** Updating a block without touching its index changes no lookup. */
  lemma {:induction false} FindOpenUpdate(blocks: seq<Block>, p: nat, b: Block, index: nat)
    requires p < |blocks| && b.index == blocks[p].index
    ensures FindOpen(blocks[p := b], index) == FindOpen(blocks, index)
  {
    FindOpenUnique(blocks[p := b], index, FindOpen(blocks, index));
  }

  lemma {:induction false} FindOpenPush(blocks: seq<Block>, b: Block, index: nat)
    ensures FindOpen(blocks + [b], index) ==
            if FindOpen(blocks, index) < |blocks| then FindOpen(blocks, index)
            else if b.index == Some(index) then |blocks| else |blocks| + 1
  {
    var r := FindOpen(blocks, index);
    var found := if r < |blocks| then r else if b.index == Some(index) then |blocks| else |blocks| + 1;
    FindOpenUnique(blocks + [b], index, found);
  }

  /** Closing a block changes the lookup of its own index only. */
  lemma {:induction false} FindOpenClose(blocks: seq<Block>, p: nat, b: Block, index: nat)
    requires p < |blocks| && b.index.None? && blocks[p].index != Some(index)
    ensures FindOpen(blocks[p := b], index) == FindOpen(blocks, index)
  {
    FindOpenUnique(blocks[p := b], index, FindOpen(blocks, index));
  }

  // ---------------------------------------------------------------- every step keeps the invariant

  lemma {:induction false} DeltasPush(p: nat, kind: Kind, texts: seq<string>, t: string)
    ensures Deltas(p, kind, texts + [t]) == Deltas(p, kind, texts) + [Delta(p, kind, t)]
  {
  }

  lemma {:induction false} LogOfNewPosition(events: seq<Event>, p: nat)
    requires forall e :: e in events ==> e.pos < p
    ensures Log(events, p) == []
  {
    if events != [] {
      var older := events[..|events| - 1];
      assert forall e :: e in older ==> e in events;
      assert events[|events| - 1] in events;
      LogOfNewPosition(older, p);
    }
  }

  /** A new open block starts its log. */
  lemma {:induction false} PushKeepsInv(acc: Acc, b: Block, fed: seq<Fed>)
    requires Inv(acc, fed) && b.index.Some? && Holds(b, NOTHING) && (b.Thinking? ==> !b.redacted)
    requires !b.ToolCall? ==> FindOpen(acc.blocks, b.index.value) == |acc.blocks|
    ensures Inv(Push(acc, b), fed + [NOTHING])
  {
    var t, n := Push(acc, b), |acc.blocks|;
    forall p | 0 <= p < |t.blocks|
      ensures BlockInv(t, p, (fed + [NOTHING])[p]) && IndexInv(t, p, (fed + [NOTHING])[p])
    {
      if p < n {
        PushKeepsPosition(acc, b, fed, p);
      } else {
        PushStartsPosition(acc, b, fed);
      }
    }
    forall index ensures ChunkInv(t, index) {
      assert ChunkInv(acc, index);
      FindOpenPush(acc.blocks, b, index);
    }
  }

  lemma {:induction false} PushKeepsPosition(acc: Acc, b: Block, fed: seq<Fed>, p: nat)
    requires Inv(acc, fed) && p < |acc.blocks|
    ensures BlockInv(Push(acc, b), p, fed[p]) && IndexInv(Push(acc, b), p, fed[p])
  {
    assert BlockInv(acc, p, fed[p]) && IndexInv(acc, p, fed[p]);
    LogPush(acc.events, BlockStart(|acc.blocks|, b.Kind()), p);
    if acc.blocks[p].index.Some? {
      FindOpenPush(acc.blocks, b, acc.blocks[p].index.value);
    }
  }

  lemma {:induction false} PushStartsPosition(acc: Acc, b: Block, fed: seq<Fed>)
    requires Inv(acc, fed) && b.index.Some? && Holds(b, NOTHING) && (b.Thinking? ==> !b.redacted)
    requires !b.ToolCall? ==> FindOpen(acc.blocks, b.index.value) == |acc.blocks|
    ensures BlockInv(Push(acc, b), |acc.blocks|, NOTHING) && IndexInv(Push(acc, b), |acc.blocks|, NOTHING)
  {
    var n := |acc.blocks|;
    LogPush(acc.events, BlockStart(n, b.Kind()), n);
    LogOfNewPosition(acc.events, n);
    FindOpenPush(acc.blocks, b, b.index.value);
  }

  /** Extending an open block by one delta extends its log by one event. */
  lemma {:induction false} DeltaKeepsInv(acc: Acc, p: nat, b: Block, text: string, fed: seq<Fed>)
    requires Inv(acc, fed) && p < |acc.blocks| && acc.blocks[p].index.Some?
    requires b.index == acc.blocks[p].index && b.Kind() == acc.blocks[p].Kind()
    requires b.Thinking? ==> b.redacted == acc.blocks[p].redacted
    requires Holds(b, fed[p].(texts := fed[p].texts + [text]))
    ensures Inv(Put(acc, p, b, [Delta(p, b.Kind(), text)]), FeedText(fed, p, text))
  {
    var e := Delta(p, b.Kind(), text);
    var t, ts := Put(acc, p, b, [e]), FeedText(fed, p, text);
    forall q | 0 <= q < |t.blocks| ensures BlockInv(t, q, ts[q]) && IndexInv(t, q, ts[q]) {
      assert BlockInv(acc, q, fed[q]) && IndexInv(acc, q, fed[q]);
      LogPush(acc.events, e, q);
      DeltasPush(p, b.Kind(), fed[p].texts, text);
      if t.blocks[q].index.Some? {
        FindOpenUpdate(acc.blocks, p, b, t.blocks[q].index.value);
      }
    }
    forall index ensures ChunkInv(t, index) {
      assert ChunkInv(acc, index);
      FindOpenUpdate(acc.blocks, p, b, index);
    }
  }

  /** Changing an open thinking block without an event, possibly keeping one more redacted chunk. */
  lemma {:induction false} SilentKeepsInv(
      acc: Acc, p: nat, b: Block, redacted: map<nat, seq<Bytes>>, fed: seq<Fed>, f: Fed)
    requires Inv(acc, fed) && p < |acc.blocks| && acc.blocks[p].index.Some?
    requires b.index == acc.blocks[p].index && b.Thinking? && acc.blocks[p].Thinking?
    requires f.texts == fed[p].texts && Holds(b, f)
    requires acc.blocks[p].redacted ==> b.redacted
    requires redacted == if b.redacted then acc.redacted[b.index.value := f.chunks] else acc.redacted
    ensures Inv(Put(acc, p, b, []).(redacted := redacted), fed[p := f])
  {
    var t, fed' := Put(acc, p, b, []).(redacted := redacted), fed[p := f];
    assert acc.events + [] == acc.events;
    forall q | 0 <= q < |t.blocks| ensures BlockInv(t, q, fed'[q]) && IndexInv(t, q, fed'[q]) {
      assert BlockInv(acc, q, fed[q]) && IndexInv(acc, q, fed[q]) && IndexInv(acc, p, fed[p]);
      if t.blocks[q].index.Some? {
        FindOpenUpdate(acc.blocks, p, b, t.blocks[q].index.value);
      }
    }
    forall index ensures ChunkInv(t, index) {
      assert ChunkInv(acc, index) && IndexInv(acc, p, fed[p]);
      FindOpenUpdate(acc.blocks, p, b, index);
    }
  }

  /** Stopping a block ends its log, and forgets its chunks. */
  lemma {:induction false} StopKeepsInv(acc: Acc, index: nat, fed: seq<Fed>)
    requires Inv(acc, fed)
    ensures Inv(StopBlock(acc, index), fed)
  {
    var p := FindOpen(acc.blocks, index);
    if p < |acc.blocks| {
      var t := StopBlock(acc, index);
      var e := t.events[|acc.events|];
      assert t.events == acc.events + [e];
      forall q | 0 <= q < |t.blocks| ensures BlockInv(t, q, fed[q]) && IndexInv(t, q, fed[q]) {
        assert BlockInv(acc, q, fed[q]) && IndexInv(acc, q, fed[q]) && ChunkInv(acc, index);
        LogPush(acc.events, e, q);
        if q != p && t.blocks[q].index.Some? && t.blocks[q].index.value != index {
          FindOpenClose(acc.blocks, p, t.blocks[p], t.blocks[q].index.value);
        }
      }
      forall i ensures ChunkInv(t, i) {
        assert ChunkInv(acc, i) && IndexInv(acc, p, fed[p]);
        if i != index {
          FindOpenClose(acc.blocks, p, t.blocks[p], i);
        }
      }
    }
  }

  // ---------------------------------------------------------------- routing

  function FeedText(fed: seq<Fed>, p: nat, t: string): seq<Fed>
    requires p < |fed|
  {
    fed[p := fed[p].(texts := fed[p].texts + [t])]
  }

  function FeedReasoning(f: Fed, t: string, signature: string, chunk: Option<Bytes>): Fed {
    Fed(f.texts + (if t != "" then [t] else []), f.signature + signature,
        f.chunks + if chunk.Some? then [chunk.value] else [])
  }

  /** Where a delta goes: the first open block of its index if it is of the right kind, else a new one or nowhere. */
  function Route(acc: Acc, fed: seq<Fed>, index: nat, delta: DeltaPayload): (r: seq<Fed>)
    requires |fed| == |acc.blocks|
    ensures |r| == |AddDelta(acc, index, delta).blocks|
  {
    var p := FindOpen(acc.blocks, index);
    var found := p < |acc.blocks|;
    match delta
    case TextDelta(t) =>
      if !found then fed + [Fed([t], "", [])] else if acc.blocks[p].Text? then FeedText(fed, p, t) else fed
    case ToolDelta(input) => if found && acc.blocks[p].ToolCall? then FeedText(fed, p, input) else fed
    case ReasoningDelta(t, signature, chunk) =>
      if !found then fed + [FeedReasoning(NOTHING, t, signature, chunk)]
      else if acc.blocks[p].Thinking? then fed[p := FeedReasoning(fed[p], t, signature, chunk)] else fed
    case NoDelta => fed
  }

  lemma {:induction false} AddTextKeepsInv(acc: Acc, p: nat, t: string, fed: seq<Fed>)
    requires Inv(acc, fed) && p < |acc.blocks| && acc.blocks[p].index.Some?
    ensures Inv(AddText(acc, p, t), if acc.blocks[p].Text? then FeedText(fed, p, t) else fed)
  {
    var b := acc.blocks[p];
    if b.Text? {
      assert BlockInv(acc, p, fed[p]);
      ConcatPush(fed[p].texts, t);
      DeltaKeepsInv(acc, p, b.(text := b.text + t), t, fed);
    }
  }

  lemma {:induction false} AddToolInputKeepsInv(acc: Acc, p: nat, input: string, fed: seq<Fed>)
    requires Inv(acc, fed) && p < |acc.blocks| && acc.blocks[p].index.Some?
    ensures Inv(AddToolInput(acc, p, input), if acc.blocks[p].ToolCall? then FeedText(fed, p, input) else fed)
  {
    var b := acc.blocks[p];
    if b.ToolCall? {
      assert BlockInv(acc, p, fed[p]);
      ConcatPush(fed[p].texts, input);
      var json := b.partialJson.value + input;
      DeltaKeepsInv(acc, p, b.(partialJson := Some(json), arguments := ParsedFrom(json)), input, fed);
    }
  }

  lemma {:induction false} AddThinkingKeepsInv(acc: Acc, p: nat, t: string, fed: seq<Fed>)
    requires Inv(acc, fed) && p < |acc.blocks| && acc.blocks[p].index.Some? && acc.blocks[p].Thinking?
    ensures Inv(AddThinking(acc, p, t), if t != "" then FeedText(fed, p, t) else fed)
  {
    var b := acc.blocks[p];
    if t != "" {
      assert BlockInv(acc, p, fed[p]);
      ConcatPush(fed[p].texts, t);
      DeltaKeepsInv(acc, p, b.(thinking := b.thinking + t), t, fed);
    }
  }

  lemma {:induction false} AddSignatureKeepsInv(acc: Acc, p: nat, signature: string, fed: seq<Fed>)
    requires Inv(acc, fed) && p < |acc.blocks| && acc.blocks[p].index.Some? && acc.blocks[p].Thinking?
    ensures Inv(AddSignature(acc, p, signature), fed[p := fed[p].(signature := fed[p].signature + signature)])
  {
    var b, f := acc.blocks[p], fed[p].(signature := fed[p].signature + signature);
    if signature != "" {
      assert BlockInv(acc, p, fed[p]) && IndexInv(acc, p, fed[p]);
      assert b.redacted ==> acc.redacted[b.index.value := f.chunks] == acc.redacted;
      SilentKeepsInv(acc, p, AddSignature(acc, p, signature).blocks[p], acc.redacted, fed, f);
    } else {
      assert f == fed[p] && fed[p := f] == fed;
    }
  }

  lemma {:induction false} AddRedactedKeepsInv(acc: Acc, p: nat, index: nat, chunk: Option<Bytes>, fed: seq<Fed>)
    requires Inv(acc, fed) && p < |acc.blocks| && acc.blocks[p].index == Some(index) && acc.blocks[p].Thinking?
    ensures Inv(AddRedacted(acc, p, index, chunk),
        fed[p := fed[p].(chunks := fed[p].chunks + if chunk.Some? then [chunk.value] else [])])
  {
    var f := fed[p].(chunks := fed[p].chunks + if chunk.Some? then [chunk.value] else []);
    if chunk.Some? {
      var t := AddRedacted(acc, p, index, chunk);
      assert BlockInv(acc, p, fed[p]) && IndexInv(acc, p, fed[p]) && ChunkInv(acc, index);
      SilentKeepsInv(acc, p, t.blocks[p], t.redacted, fed, f);
    } else {
      assert f == fed[p] && fed[p := f] == fed;
    }
  }

  lemma {:induction false} ReasoningKeepsInv(
      acc: Acc, p: nat, index: nat, t: string, signature: string, chunk: Option<Bytes>, fed: seq<Fed>)
    requires Inv(acc, fed) && p < |acc.blocks| && acc.blocks[p].index == Some(index) && acc.blocks[p].Thinking?
    ensures Inv(AddReasoning(acc, p, index, t, signature, chunk), fed[p := FeedReasoning(fed[p], t, signature, chunk)])
  {
    var fed1 := if t != "" then FeedText(fed, p, t) else fed;
    var fed2 := fed1[p := fed1[p].(signature := fed1[p].signature + signature)];
    var acc1 := AddThinking(acc, p, t);
    AddThinkingKeepsInv(acc, p, t, fed);
    AddSignatureKeepsInv(acc1, p, signature, fed1);
    AddRedactedKeepsInv(AddSignature(acc1, p, signature), p, index, chunk, fed2);
    FeedInSteps(fed, p, t, signature, chunk);
  }

  lemma {:induction false} FeedInSteps(fed: seq<Fed>, p: nat, t: string, signature: string, chunk: Option<Bytes>)
    requires p < |fed|
    ensures var fed1 := if t != "" then FeedText(fed, p, t) else fed;
            var fed2 := fed1[p := fed1[p].(signature := fed1[p].signature + signature)];
            fed2[p := fed2[p].(chunks := fed2[p].chunks + if chunk.Some? then [chunk.value] else [])]
            == fed[p := FeedReasoning(fed[p], t, signature, chunk)]
  {
    assert fed[p].texts + [] == fed[p].texts;
  }

  lemma {:induction false} FeedNew(fed: seq<Fed>, t: string)
    ensures FeedText(fed + [NOTHING], |fed|, t) == fed + [Fed([t], "", [])]
  {
    assert (fed + [NOTHING])[|fed|].texts + [t] == [t];
  }

  lemma {:induction false} NewTextKeepsInv(acc: Acc, index: nat, t: string, fed: seq<Fed>)
    requires Inv(acc, fed) && FindOpen(acc.blocks, index) == |acc.blocks|
    ensures Inv(AddText(Push(acc, Text("", Some(index))), |acc.blocks|, t), fed + [Fed([t], "", [])])
  {
    var newBlock, fed' := Text("", Some(index)), fed + [NOTHING];
    PushKeepsInv(acc, newBlock, fed);
    AddTextKeepsInv(Push(acc, newBlock), |acc.blocks|, t, fed');
    FeedNew(fed, t);
  }

  lemma {:induction false} NewReasoningKeepsInv(
      acc: Acc, index: nat, t: string, signature: string, chunk: Option<Bytes>, fed: seq<Fed>)
    requires Inv(acc, fed) && FindOpen(acc.blocks, index) == |acc.blocks|
    ensures Inv(AddReasoning(Push(acc, Thinking("", Plain(""), false, Some(index))), |acc.blocks|, index, t, signature,
        chunk),
                fed + [FeedReasoning(NOTHING, t, signature, chunk)])
  {
    var newBlock, fed' := Thinking("", Plain(""), false, Some(index)), fed + [NOTHING];
    PushKeepsInv(acc, newBlock, fed);
    ReasoningKeepsInv(Push(acc, newBlock), |acc.blocks|, index, t, signature, chunk, fed');
    assert fed'[|fed| := FeedReasoning(NOTHING, t, signature, chunk)]
        == fed + [FeedReasoning(NOTHING, t, signature, chunk)];
  }

  /** Every delta keeps the invariant, with its content routed. */
  lemma {:induction false} AddDeltaKeepsInv(acc: Acc, index: nat, delta: DeltaPayload, fed: seq<Fed>)
    requires Inv(acc, fed)
    ensures Inv(AddDelta(acc, index, delta), Route(acc, fed, index, delta))
  {
    var p := FindOpen(acc.blocks, index);
    match delta
    case TextDelta(t) =>
      if p < |acc.blocks| {
        AddTextKeepsInv(acc, p, t, fed);
      } else {
        NewTextKeepsInv(acc, index, t, fed);
      }
    case ToolDelta(input) =>
      if p < |acc.blocks| {
        AddToolInputKeepsInv(acc, p, input, fed);
      }
    case ReasoningDelta(t, signature, chunk) =>
      if p == |acc.blocks| {
        NewReasoningKeepsInv(acc, index, t, signature, chunk, fed);
      } else if acc.blocks[p].Thinking? {
        ReasoningKeepsInv(acc, p, index, t, signature, chunk, fed);
      }
    case NoDelta =>
  }

  // ---------------------------------------------------------------- whole streams

  datatype Item =
    | MessageStart(assistant: bool)
    | ContentStart(index: nat, toolUse: Option<(string, string)>)
    | ContentDelta(index: nat, delta: DeltaPayload)
    | ContentStop(index: nat)
    | MessageStop(failed: bool)
    | Metadata
    | Exception

  /** Items that make the loop throw. */
  predicate Throws(item: Item) {
    item.Exception? || (item.MessageStart? && !item.assistant)
  }

  function Handle(acc: Acc, item: Item): Acc {
    match item
    case ContentStart(index, toolUse) => StartBlock(acc, index, toolUse)
    case ContentDelta(index, delta) => AddDelta(acc, index, delta)
    case ContentStop(index) => StopBlock(acc, index)
    case _ => acc
  }

  function HandleAll(acc: Acc, items: seq<Item>): Acc {
    if items == [] then acc
    else Handle(HandleAll(acc, items[..|items| - 1]), items[|items| - 1])
  }

  /** What reached each content position. */
  function FedBy(items: seq<Item>): (r: seq<Fed>)
    ensures |r| == |HandleAll(EMPTY, items).blocks|
  {
    if items == [] then []
    else
      var older, last := items[..|items| - 1], items[|items| - 1];
      match last
      case ContentStart(_, toolUse) => if toolUse.Some? then FedBy(older) + [NOTHING] else FedBy(older)
      case ContentDelta(index, delta) => Route(HandleAll(EMPTY, older), FedBy(older), index, delta)
      case _ => FedBy(older)
  }

  lemma {:induction false} HandleAllInv(items: seq<Item>)
    ensures Inv(HandleAll(EMPTY, items), FedBy(items))
  {
    if items != [] {
      var older, last := items[..|items| - 1], items[|items| - 1];
      HandleAllInv(older);
      var acc := HandleAll(EMPTY, older);
      match last
      case ContentStart(index, toolUse) =>
        if toolUse.Some? {
          PushKeepsInv(acc, ToolCall(toolUse.value.0, toolUse.value.1, NoArguments, Some(""), Some(index)),
              FedBy(older));
        }
      case ContentDelta(index, delta) => AddDeltaKeepsInv(acc, index, delta, FedBy(older));
      case ContentStop(index) => StopKeepsInv(acc, index, FedBy(older));
      case _ =>
    }
  }

  /** The closing sweep: stop, in order, every block whose stop never came. */
  function Sweep(acc: Acc, k: nat): (r: Acc)
    requires k <= |acc.blocks|
    ensures |r.blocks| == |acc.blocks|
    decreases |acc.blocks| - k
  {
    if k == |acc.blocks| then acc else Sweep(SweepOne(acc, k), k + 1)
  }

  function SweepOne(acc: Acc, k: nat): (r: Acc)
    requires k < |acc.blocks|
    ensures |r.blocks| == |acc.blocks|
  {
    var b := acc.blocks[k];
    if b.index.Some? then StopBlock(acc, b.index.value) else acc
  }

  /** The sweep closes every block, whatever indexes were reused. */
  lemma {:induction false} SweepCloses(acc: Acc, k: nat, fed: seq<Fed>)
    requires Inv(acc, fed) && k <= |acc.blocks|
    requires forall q :: 0 <= q < k ==> acc.blocks[q].index.None?
    ensures Inv(Sweep(acc, k), fed)
    ensures forall q :: 0 <= q < |acc.blocks| ==> Sweep(acc, k).blocks[q].index.None?
    decreases |acc.blocks| - k
  {
    if k < |acc.blocks| {
      if acc.blocks[k].index.Some? {
        FindOpenUnique(acc.blocks, acc.blocks[k].index.value, k);
        StopKeepsInv(acc, acc.blocks[k].index.value, fed);
      }
      SweepCloses(SweepOne(acc, k), k + 1, fed);
    }
  }

  /** A completed stream: the fold of its items, then the sweep. */
  function Completed(items: seq<Item>): Acc {
    Sweep(HandleAll(EMPTY, items), 0)
  }

  /**
   For every sequence of items: each content position gets exactly one start, its deltas and
   exactly one end; its text is the concatenation of the deltas routed to it; and no scratch
   state is left, however indexes repeat and whichever stops are missing.
   */
  lemma {:induction false} CompletedStream(items: seq<Item>, p: nat)
    requires p < |Completed(items).blocks|
    ensures p < |FedBy(items)|
    ensures var acc, fed := Completed(items), FedBy(items)[p];
            var b := acc.blocks[p];
            && Log(acc.events, p) == [BlockStart(p, b.Kind())] + Deltas(p, b.Kind(), fed.texts) + [BlockEnd(p, b)]
            && b.index.None? && Holds(b, fed)
  {
    HandleAllInv(items);
    SweepCloses(HandleAll(EMPTY, items), 0, FedBy(items));
    assert BlockInv(Completed(items), p, FedBy(items)[p]);
  }

  /** No redacted chunk and no event outside the content positions is left behind. */
  lemma {:induction false} NothingLeftBehind(items: seq<Item>)
    ensures Completed(items).redacted == map[]
    ensures forall e :: e in Completed(items).events ==> e.pos < |Completed(items).blocks|
  {
    HandleAllInv(items);
    SweepCloses(HandleAll(EMPTY, items), 0, FedBy(items));
    var acc := Completed(items);
    forall index ensures index !in acc.redacted {
      assert ChunkInv(acc, index);
    }
    assert acc.redacted.Keys == {};
  }
}
